/**
 The Huffman trees of deflate: the heap, the tree and its bit lengths with the repair of those too long, and the codes
 (dep/zlib/trees.c:412-697, 1136-1146). An array entry holds both father and length, and another both frequency
 and code, as the unions of ct_data do.
 */
module DeflateTrees {
  import opened BitLengths
  import opened FlateCode
  import opened Counting
  import opened FlateHeap
  import opened FlateMerge
  import opened FlateTree
  import opened HuffmanHeap
  import opened Permutations
  import opened Powers
  import opened TreeCost
  import HuffmanTree

  // ----- the repair ------------------------------------------------------------------------------------------------

  /** The counts of k lengths, none past max, whose Kraft sum is one and half units too many. */
  ghost predicate Excess(cnt: seq<int>, max: nat, k: int, half: nat) {
    && 1 <= max <= MAX_BITS && |cnt| == MAX_BITS + 1 && cnt[0] == 0
         && (forall b {:trigger cnt[b]} :: 0 <= b <= MAX_BITS ==> cnt[b] >= 0)
    && (forall b {:trigger cnt[b]} :: max < b <= MAX_BITS ==> cnt[b] == 0)
    && Used(cnt, max) == Pow2(max) + half && Total(cnt, max) == k && (half > 0 ==> cnt[max] > half)
  }

  lemma ExcessBounds(cnt: seq<int>, max: nat, k: int, half: nat)
    requires Excess(cnt, max, k, half)
    ensures 1 <= max <= MAX_BITS && |cnt| == MAX_BITS + 1 && cnt[0] == 0 && forall b {:trigger cnt[b]} ::
      0 <= b <= MAX_BITS ==> cnt[b] >= 0
  {
  }

  lemma {:induction false} NoneUpTo(cnt: seq<int>, l: nat)
    requires l < |cnt| && forall b {:trigger cnt[b]} :: 1 <= b <= l ==> cnt[b] == 0
    ensures Used(cnt, l) == 0 && Total(cnt, l) == 0
    decreases l
  {
    if l > 0 { NoneUpTo(cnt, l - 1); }
  }

  /** While the lengths are too many, some are shorter than max: max alone has room for all the symbols. */
  lemma SomeShorter(cnt: seq<int>, max: nat, k: int, half: nat, j: int)
    requires Excess(cnt, max, k, half) && half > 0 && k <= Pow2(max) && 0 <= j && forall b {:trigger cnt[b]} ::
      j < b < max ==> cnt[b] == 0
    ensures 1 <= j
  {
    if j < 1 { AllAtMax(cnt, max); }
  }

  lemma AllAtMax(cnt: seq<int>, max: nat)
    requires 1 <= max < |cnt| && forall b {:trigger cnt[b]} :: 1 <= b < max ==> cnt[b] == 0
    ensures Used(cnt, max) == cnt[max] == Total(cnt, max)
  {
    NoneUpTo(cnt, max - 1);
  }

  /** One leaf moves down a level, and takes a leaf from max as its brother: that is one unit less. */
  lemma OneUnit(cnt: seq<int>, max: nat, k: int, half: nat, b: int)
    requires Excess(cnt, max, k, half) && half > 0 && 1 <= b < max && cnt[b] > 0
    ensures var c1 := cnt[b := cnt[b] - 1]; var c2 := c1[b + 1 := c1[b + 1] + 2];
      Excess(c2[max := c2[max] - 1], max, k, half - 1)
  {
    var c1 := cnt[b := cnt[b] - 1];
    var c2 := c1[b + 1 := c1[b + 1] + 2];
    UsedChange(cnt, b, -1, max);
    UsedChange(c1, b + 1, 2, max);
    UsedChange(c2, max, -1, max);
    TotalChange(cnt, b, -1, max);
    TotalChange(c1, b + 1, 2, max);
    TotalChange(c2, max, -1, max);
    assert Pow2(max - b) == 2 * Pow2(max - b - 1) && Pow2(0) == 1;
    hide Used, Total, Pow2;
  }

  /** The loop that moves leaves until the lengths fit. */
  method Repair(blCount: array<int>, max: int, overflow0: int, ghost k: int)
    requires 0 <= max && overflow0 > 0 && overflow0 % 2 == 0 && Excess(blCount[..], max, k, overflow0 / 2)
      && k <= Pow2(max)
    modifies blCount
    ensures Excess(blCount[..], max, k, 0)
  {
    hide Excess, Pow2;
    var overflow := overflow0;
    while overflow > 0
      invariant overflow >= 0 && overflow % 2 == 0 && Excess(blCount[..], max, k, overflow / 2)
    {
      ghost var cnt := blCount[..];
      ExcessBounds(cnt, max, k, overflow / 2);
      var bits := max - 1;
      SomeShorter(cnt, max, k, overflow / 2, bits);
      while blCount[bits] == 0
        invariant 1 <= bits < max && blCount[..] == cnt && forall b {:trigger cnt[b]} :: bits < b < max ==> cnt[b] == 0
        decreases bits
      {
        bits := bits - 1;
        assert forall b {:trigger cnt[b]} :: bits < b < max ==> cnt[b] == 0;
        SomeShorter(cnt, max, k, overflow / 2, bits);
      }
      OneUnit(cnt, max, k, overflow / 2, bits);
      blCount[bits] := blCount[bits] - 1;
      blCount[bits + 1] := blCount[bits + 1] + 2;
      blCount[max] := blCount[max] - 1;
      overflow := overflow - 2;
      ghost var c1 := cnt[bits := cnt[bits] - 1];
      ghost var c2 := c1[bits + 1 := c1[bits + 1] + 2];
      assert blCount[..] == c2[max := c2[max] - 1];
    }
  }

  // ----- bit lengths -------------------------------------------------------------------------------------------------

  /** No symbol past maxCode is listed. */
  ghost predicate UpToMax(pos: seq<int>, S: int, elems: int, maxCode: int) {
    0 <= maxCode < elems <= |pos| && forall y {:trigger pos[y]} :: maxCode < y < elems ==> pos[y] <= S
  }

  /** Each listed node's entry is its father. */
  ghost predicate Fathered(dl: seq<int>, heap: seq<int>, S: int, N: int) {
    forall i {:trigger heap[i]} :: 0 <= S < i < |heap| ==> 0 <= heap[i] < |dl| && dl[heap[i]] == DadAt(N, S, i)
  }

  /** The first pass: each node is one longer than its father, but not longer than max. */
  method FirstLengthsPass(heap: array<int>, dl: array<int>, blCount: array<int>, S: int, maxCode: int, max: int,
                          fc: array<int>, d: Desc, ghost elems: int, ghost N: int, ghost pos: seq<int>)
      returns (overflow: int, opt: int, stat: int)
    requires heap != dl && heap != blCount && dl != blCount && heap.Length == HEAP_SIZE
      && blCount.Length == MAX_BITS + 1
    requires Listed(heap[..], S, elems, N, pos) && N < dl.Length && 1 <= max <= MAX_BITS
      && UpToMax(pos, S, elems, maxCode)
    requires Fathered(dl[..], heap[..], S, N) && fc != dl && fc != blCount && Described(d, elems) && elems <= fc.Length
    modifies dl, blCount
    ensures elems <= |pos| && elems <= dl.Length && 0 <= elems
    ensures opt == Cost(fc[..], dl[..], d, pos, S, HEAP_SIZE, elems)
      && stat == StaticCost(fc[..], d, pos, S, HEAP_SIZE, elems)
    ensures FirstLengths(dl[..], heap[..], S, elems, N, pos, max, HEAP_SIZE, blCount[..], overflow)
    ensures forall y {:trigger dl[y]} :: 0 <= y < dl.Length && y != N && y < |pos| && pos[y] <= S ==>
      dl[y] == old(dl[y])
  {
    hide *;
    ghost var hp := heap[..];
    ghost var was, freq := dl[..], fc[..];
    var bits := 0;
    opt, stat := 0, 0;
    DescribedParts(d, elems);
    ListSize(hp, S, elems, N, pos);
    RootListed(hp, S, elems, N, pos);
    while bits <= MAX_BITS
      invariant 0 <= bits <= MAX_BITS + 1 && blCount.Length == MAX_BITS + 1 && forall b {:trigger blCount[b]} ::
        0 <= b < bits ==> blCount[b] == 0
      invariant dl[..] == was
    {
      blCount[bits] := 0;
      bits := bits + 1;
    }
    dl[heap[S]] := 0;
    overflow := 0;
    FirstLengthsStart(dl[..], was, hp, S, elems, N, pos, max, blCount[..]);
    var h := S + 1;
    CostStarts(freq, dl[..], d, pos, S, elems);
    while h < HEAP_SIZE
      invariant S < h <= HEAP_SIZE && heap[..] == hp
        && FirstLengths(dl[..], hp, S, elems, N, pos, max, h, blCount[..], overflow)
      invariant forall y {:trigger dl[y]} :: 0 <= y < dl.Length && y != N && y < |pos| && pos[y] <= S ==>
        dl[y] == was[y]
      invariant fc[..] == freq && opt == Cost(freq, dl[..], d, pos, S, h, elems)
        && stat == StaticCost(freq, d, pos, S, h, elems)
    {
      ghost var L, cnt := dl[..], blCount[..];
      FirstLengthsSizes(L, hp, S, elems, N, pos, max, h, cnt, overflow);
      FirstStep(L, hp, S, elems, N, pos, max, h, cnt, overflow);
      LeafTestAt(hp, S, elems, N, pos, maxCode, h);
      var n := heap[h];
      PlaceOnce(hp, S, elems, N, pos, h);
      bits := dl[dl[n]] + 1;
      ClampIs(bits, max);
      if bits > max {
        bits := max;
        overflow := overflow + 1;
      }
      ghost var cnt' := if n < elems then cnt[bits := cnt[bits] + 1] else cnt;
      assert FirstLengths(L[n := bits], hp, S, elems, N, pos, max, h + 1, cnt', overflow);
      CostsNext(freq, L, d, pos, S, h, elems, n, bits);
      dl[n] := bits;
      assert dl[..] == L[n := bits];
      if n <= maxCode {
        var xbits := 0;
        if n >= d.base { xbits := d.extra[n - d.base]; }
        opt := opt + fc[n] * (bits + xbits);
        if d.stree != [] { stat := stat + fc[n] * (d.stree[n] + xbits); }
        blCount[bits] := blCount[bits] + 1;
      }
      assert blCount[..] == cnt';
      h := h + 1;
    }
  }

  lemma ClampIs(c: int, max: int)
    ensures Clamp(c, max) == if c > max then max else c
  {
  }

  lemma RootListed(heap: seq<int>, S: int, elems: int, N: int, pos: seq<int>)
    requires Listed(heap, S, elems, N, pos)
    ensures heap[S] == N && 0 <= N < |pos|
  {
  }

  lemma LeafTestAt(heap: seq<int>, S: int, elems: int, N: int, pos: seq<int>, maxCode: int, i: int)
    requires Listed(heap, S, elems, N, pos) && UpToMax(pos, S, elems, maxCode) && S < i < HEAP_SIZE
    ensures 0 <= heap[i] < |pos| && (heap[i] > maxCode <==> heap[i] >= elems) && pos[heap[i]] == i
  {
    assert pos[heap[i]] == i;
  }

  lemma FirstLengthsStart(L: seq<int>, was: seq<int>, heap: seq<int>, S: int, elems: int, N: int, pos: seq<int>,
                          max: nat, cnt: seq<int>)
    requires Listed(heap, S, elems, N, pos) && N < |was| && 1 <= max <= MAX_BITS && L == was[N := 0]
    requires |cnt| == MAX_BITS + 1 && forall b {:trigger cnt[b]} :: 0 <= b <= MAX_BITS ==> cnt[b] == 0
    requires Fathered(was, heap, S, N)
    ensures FirstLengths(L, heap, S, elems, N, pos, max, S + 1, cnt, 0)
  {
    assert cnt == LeafCounts(L, heap, S, elems, max, S + 1);
    hide DadAt, LeafCounts;
  }

  lemma ExcessTotal(cnt: seq<int>, max: nat, k: int, half: nat)
    requires Excess(cnt, max, k, half)
    ensures Total(cnt, max) == k && |cnt| == MAX_BITS + 1 && max <= MAX_BITS && forall b {:trigger cnt[b]} ::
      max < b <= MAX_BITS ==> cnt[b] == 0
  {
  }

  lemma ListedNodes(heap: seq<int>, S: int, elems: int, N: int, pos: seq<int>)
    requires Listed(heap, S, elems, N, pos)
    ensures forall i {:trigger heap[i]} :: S < i < |heap| ==> 0 <= heap[i] < N && heap[i] < |pos| && pos[heap[i]] == i
  {
  }

  lemma AllDealtOut(L: seq<int>, heap: seq<int>, S: int, elems: int, max: nat, h: int, cnt: seq<int>, n: int, k: int)
    requires Dealt(L, heap, S, elems, max, h, cnt, 0, n) && Excess(cnt, max, k, 0)
    ensures LeafCounts(L, heap, S, elems, max, |heap|) == cnt && LongerBehind(L, heap, S, elems)
    ensures forall i {:trigger heap[i]} :: S < i < h ==> heap[i] >= elems
  {
    AllDealt(L, heap, S, elems, max, h, cnt, n);
    forall i {:trigger heap[i]} | S < i < h ensures heap[i] >= elems { NoLeafBefore(heap, S, elems, h, i); }
  }

  /** Deals the lengths out again, the longest to the nodes furthest back. */
  method Deal(heap: array<int>, dl: array<int>, blCount: array<int>, S: int, maxCode: int, max: int, fc: array<int>,
              d: Desc, ghost elems: int, ghost N: int, ghost pos: seq<int>) returns (more: int)
    requires heap != dl && heap != blCount && dl != blCount && heap.Length == HEAP_SIZE
      && blCount.Length == MAX_BITS + 1
    requires Listed(heap[..], S, elems, N, pos) && N < dl.Length && 1 <= max && UpToMax(pos, S, elems, maxCode)
    requires Excess(blCount[..], max, LeafNo(heap[..], S, elems, HEAP_SIZE), 0)
    requires fc != dl && elems <= fc.Length && 0 <= elems <= |pos| && elems <= dl.Length
    modifies dl
    ensures more == Cost(fc[..], dl[..], d, pos, S, HEAP_SIZE,
      elems) - old(Cost(fc[..], dl[..], d, pos, S, HEAP_SIZE, elems))
    ensures LeafCounts(dl[..], heap[..], S, elems, max, HEAP_SIZE) == blCount[..]
      && LongerBehind(dl[..], heap[..], S, elems)
    ensures forall y {:trigger dl[y]} :: 0 <= y < dl.Length && y < |pos| && pos[y] <= S ==> dl[y] == old(dl[y])
    ensures forall i {:trigger heap[i]} :: S < i < HEAP_SIZE && 0 <= heap[i] < elems ==> 1 <= dl[heap[i]] <= max
  {
    hide *;
    ghost var hp, cnt, freq, first := heap[..], blCount[..], fc[..], Cost(fc[..], dl[..], d, pos, S, HEAP_SIZE, elems);
    more := 0;
    ListSize(hp, S, elems, N, pos);
    ghost var k := LeafNo(hp, S, elems, HEAP_SIZE);
    ExcessBounds(cnt, max, k, 0);
    ExcessTotal(cnt, max, k, 0);
    ListedNodes(hp, S, elems, N, pos);
    DealingStarts(dl[..], hp, S, elems, max, cnt);
    var h, bits, n := HEAP_SIZE, max, blCount[max];
    while bits != 0
      invariant 0 <= bits <= max && heap[..] == hp && blCount[..] == cnt && S < h <= HEAP_SIZE && n == cnt[bits]
      invariant Dealt(dl[..], hp, S, elems, max, h, cnt, bits, n)
      invariant forall y {:trigger dl[y]} :: 0 <= y < dl.Length && y < |pos| && pos[y] <= S ==> dl[y] == old(dl[y])
      invariant forall i {:trigger heap[i]} :: h <= i < HEAP_SIZE && 0 <= heap[i] < elems ==> 1 <= dl[heap[i]] <= max
      invariant fc[..] == freq && more == Cost(freq, dl[..], d, pos, S, HEAP_SIZE, elems) - first
      decreases bits
    {
      while n != 0
        invariant 0 <= n && heap[..] == hp && blCount[..] == cnt && S < h <= HEAP_SIZE
        invariant Dealt(dl[..], hp, S, elems, max, h, cnt, bits, n)
        invariant forall y {:trigger dl[y]} :: 0 <= y < dl.Length && y < |pos| && pos[y] <= S ==> dl[y] == old(dl[y])
        invariant forall i {:trigger heap[i]} :: h <= i < HEAP_SIZE && 0 <= heap[i] < elems ==> 1 <= dl[heap[i]] <= max
        invariant fc[..] == freq && more == Cost(freq, dl[..], d, pos, S, HEAP_SIZE, elems) - first
        decreases h
      {
        ghost var L := dl[..];
        LeavesLeft(L, hp, S, elems, max, h, cnt, bits, n);
        DealOne(L, hp, S, elems, N, pos, max, h, cnt, bits, n);
        LeafTestAt(hp, S, elems, N, pos, maxCode, h - 1);
        h := h - 1;
        var m := heap[h];
        if m > maxCode { continue; }
        CostChanges(freq, L, d, pos, S, HEAP_SIZE, elems, m, bits);
        if dl[m] != bits {
          more := more + (bits - dl[m]) * fc[m];
          dl[m] := bits;
        }
        assert dl[..] == L[m := bits];
        n := n - 1;
      }
      NextLength(dl[..], hp, S, elems, max, h, cnt, bits);
      bits := bits - 1;
      n := blCount[bits];
    }
    AllDealtOut(dl[..], hp, S, elems, max, h, cnt, n, k);
  }

  /**
   The lengths of a complete code: each listed symbol has one, blCount says how many there are of each, and they fill
   the code space.
   */
  ghost predicate CompleteLengths(dl: seq<int>, heap: seq<int>, cnt: seq<int>, S: int, elems: int, N: int,
                                  pos: seq<int>, max: nat) {
    && Listed(heap, S, elems, N, pos) && N < |dl| && Coded(dl, pos, S, elems, max) && max <= MAX_BITS
         && |cnt| == MAX_BITS + 1
    && LeafCounts(dl, heap, S, elems, max, HEAP_SIZE) == cnt && Used(cnt, max) == Pow2(max)
  }

  /** The description covers all symbols. */
  ghost predicate Described(d: Desc, elems: int) {
    0 <= d.base && elems <= d.base + |d.extra| && (d.stree != [] ==> elems <= |d.stree|)
  }

  lemma DescribedParts(d: Desc, elems: int)
    requires Described(d, elems)
    ensures 0 <= d.base && elems <= d.base + |d.extra| && (d.stree != [] ==> elems <= |d.stree|)
  {
  }

  lemma CostStarts(freq: seq<int>, lens: seq<int>, d: Desc, pos: seq<int>, S: int, n: nat)
    requires n <= |freq| && n <= |lens| && n <= |pos| && (d.stree != [] ==> n <= |d.stree|)
    ensures Cost(freq, lens, d, pos, S, S + 1, n) == 0 && StaticCost(freq, d, pos, S, S + 1, n) == 0
  {
    CostStart(freq, lens, d, pos, S, n);
    if d.stree != [] { CostStart(freq, d.stree, d, pos, S, n); }
    hide Cost;
  }

  /** Each place lists one node. */
  lemma PlaceOnce(heap: seq<int>, S: int, elems: int, N: int, pos: seq<int>, h: int)
    requires Listed(heap, S, elems, N, pos) && S < h < HEAP_SIZE
    ensures 0 <= elems <= |pos| && 0 <= heap[h] < |pos| && pos[heap[h]] == h
    ensures forall z {:trigger pos[z]} :: 0 <= z < elems && pos[z] == h ==> z == heap[h]
  {
    ListedNodes(heap, S, elems, N, pos);
    hide DadAt;
  }

  /** What one more node adds to both sums: nothing, unless it is a symbol. */
  lemma CostsNext(freq: seq<int>, lens: seq<int>, d: Desc, pos: seq<int>, S: int, h: int, n: nat, y: int, bits: int)
    requires n <= |freq| && n <= |lens| && n <= |pos| && Described(d, n) && S < h && 0 <= y < |lens| && y < |pos|
    requires pos[y] == h && forall z {:trigger pos[z]} :: 0 <= z < n && pos[z] == h ==> z == y
    ensures Cost(freq, lens[y := bits], d, pos, S, h + 1, n) ==
            Cost(freq, lens, d, pos, S, h, n) + if y < n then freq[y] * (bits + XBits(d, y)) else 0
    ensures StaticCost(freq, d, pos, S, h + 1, n) ==
            StaticCost(freq, d, pos, S, h, n)
            + if y < n && d.stree != [] then freq[y] * (d.stree[y] + XBits(d, y)) else 0
    ensures y < n ==> XBits(d, y) == if y >= d.base then d.extra[y - d.base] else 0
  {
    CostNext(freq, lens, d, pos, S, h, n, y, bits);
    if d.stree != [] {
      if y < n {
        CostNext(freq, d.stree, d, pos, S, h, n, y, d.stree[y]);
        assert d.stree[y := d.stree[y]] == d.stree;
      } else {
        CostSkips(freq, d.stree, d, pos, S, h, n);
      }
    }
    hide Cost;
  }

  /** All symbols that occur are listed. */
  lemma CostsAreAll(freq: seq<int>, lens: seq<int>, d: Desc, S: int, elems: int, pos: seq<int>, N: int, heap: seq<int>)
    requires AllListed(freq, pos, S, elems) && Listed(heap, S, elems, N, pos) && Described(d, elems)
      && 0 <= elems <= |lens| && elems <= |freq| && elems <= |pos|
    ensures Cost(freq, lens, d, pos, S, HEAP_SIZE, elems) == BlockBits(freq, lens, d, elems)
    ensures StaticCost(freq, d, pos, S, HEAP_SIZE, elems) ==
            if d.stree == [] then 0 else BlockBits(freq, d.stree, d, elems)
  {
    ListedOrNone(freq, S, elems, pos, N, heap);
    hide *;
    StaticIs(freq, d, pos, S, HEAP_SIZE, elems);
    DescribedParts(d, elems);
    CostIsAll(freq, lens, d, pos, S, HEAP_SIZE, elems);
    if d.stree != [] { CostIsAll(freq, d.stree, d, pos, S, HEAP_SIZE, elems); }
  }

  lemma StaticIs(freq: seq<int>, d: Desc, pos: seq<int>, S: int, h: int, n: nat)
    requires n <= |freq| && n <= |pos| && Described(d, n)
    ensures StaticCost(freq, d, pos, S, h, n) == if d.stree == [] then 0 else Cost(freq, d.stree, d, pos, S, h, n)
  {
  }

  lemma ListedOrNone(freq: seq<int>, S: int, elems: int, pos: seq<int>, N: int, heap: seq<int>)
    requires AllListed(freq, pos, S, elems) && Listed(heap, S, elems, N, pos)
    ensures 0 <= elems <= |pos| && elems <= |freq|
    ensures forall y {:trigger pos[y]} :: 0 <= y < elems ==> S < pos[y] < HEAP_SIZE || freq[y] == 0
  {
    hide DadAt;
    forall y {:trigger pos[y]} | 0 <= y < elems ensures S < pos[y] < HEAP_SIZE || freq[y] == 0 {
      if freq[y] != 0 { assert S < pos[y]; }
    }
  }

  /** The lengths of a whole tree, none over max: as deep as the leaves lie if that fits, else made to fit. */
  method GenBitlen(heap: array<int>, dl: array<int>, blCount: array<int>, S: int, maxCode: int, max: int,
                   fc: array<int>, d: Desc, ghost elems: int, ghost N: int, ghost pos: seq<int>)
      returns (opt: int, stat: int, overflow: int)
    requires heap != dl && heap != blCount && dl != blCount && heap.Length == HEAP_SIZE
      && blCount.Length == MAX_BITS + 1
    requires Listed(heap[..], S, elems, N, pos) && N < dl.Length && 1 <= max <= MAX_BITS
      && UpToMax(pos, S, elems, maxCode)
    requires Fathered(dl[..], heap[..], S, N) && N - elems + 2 <= Pow2(max)
    requires forall y {:trigger dl[y]} :: 0 <= y < elems && pos[y] <= S ==> dl[y] == 0
    requires fc != dl && fc != blCount && Described(d, elems) && elems <= fc.Length && AllListed(fc[..], pos, S, elems)
    modifies dl, blCount
    ensures 0 <= elems <= dl.Length && opt == BlockBits(fc[..], dl[..], d, elems)
    ensures stat == if d.stree == [] then 0 else BlockBits(fc[..], d.stree, d, elems)
    ensures Total(blCount[..], max) == N - elems + 2
    ensures Weighed(fc[..], heap[..], S, elems, N, pos) ==> BestOrHeavy(fc[..], dl[..], d, elems, N, max, overflow)
    ensures 0 <= overflow && (N == elems ==> overflow == 0)
    ensures CompleteLengths(dl[..], heap[..], blCount[..], S, elems, N, pos, max)
  {
    hide *;
    ghost var hp := heap[..];
    ListSize(hp, S, elems, N, pos);
    RootListed(hp, S, elems, N, pos);
    DescribedParts(d, elems);
    overflow, opt, stat := FirstLengthsPass(heap, dl, blCount, S, maxCode, max, fc, d, elems, N, pos);
    ghost var L, cnt := dl[..], blCount[..];
    FirstIsBest(L, hp, S, elems, N, pos, max, cnt, overflow, fc[..], d);
    ghost var half := FirstLengthsEnd(L, hp, S, elems, N, pos, max, cnt, overflow);
    ExcessTotal(cnt, max, LeafNo(hp, S, elems, HEAP_SIZE), half);
    if overflow == 0 {
      NothingToRepair(L, hp, S, elems, N, pos, max, cnt, overflow);
    } else {
      Repair(blCount, max, overflow, LeafNo(hp, S, elems, HEAP_SIZE));
      HeavyStays(fc[..], L, d, elems, N, max, overflow);
      ghost var fixed := blCount[..];
      ExcessKraft(fixed, max, LeafNo(hp, S, elems, HEAP_SIZE));
      ExcessTotal(fixed, max, LeafNo(hp, S, elems, HEAP_SIZE), 0);
      var more := Deal(heap, dl, blCount, S, maxCode, max, fc, d, elems, N, pos);
      opt := opt + more;
      LengthsDealt(dl[..], hp, fixed, S, elems, N, pos, max);
    }
    CostsAreAll(fc[..], dl[..], d, S, elems, pos, N, hp);
  }

  /** No length was cut and the lengths are the cheapest, or the whole weighs as much as depth takes. */
  ghost predicate BestOrHeavy(f: seq<int>, lens: seq<int>, d: Desc, elems: int, N: int, max: nat, overflow: int) {
    && 0 <= elems && 0 <= N < |f|
    && if overflow == 0 then Cheapest(f, lens, d, elems) else f[N] >= HuffmanTree.Fib(max + 3)
  }

  lemma HeavyStays(f: seq<int>, L: seq<int>, d: Desc, elems: int, N: int, max: nat, overflow: int)
    ensures overflow != 0 ==> forall lens: seq<int> {:trigger BestOrHeavy(f, lens, d, elems, N, max, overflow)} ::
      BestOrHeavy(f, L, d, elems, N, max, overflow) ==> BestOrHeavy(f, lens, d, elems, N, max, overflow)
  {
  }

  /** What the first pass leaves is the best there is, if it cut nothing. */
  lemma FirstIsBest(L: seq<int>, heap: seq<int>, S: int, elems: int, N: int, pos: seq<int>, max: nat, cnt: seq<int>,
                    overflow: int, f: seq<int>, d: Desc)
    requires FirstLengths(L, heap, S, elems, N, pos, max, HEAP_SIZE, cnt, overflow)
    ensures Weighed(f, heap, S, elems, N, pos) ==> BestOrHeavy(f, L, d, elems, N, max, overflow)
    ensures 0 <= overflow && (N == elems ==> overflow == 0)
  {
    hide *;
    FirstParts(L, heap, S, elems, N, pos, max, cnt, overflow);
    if overflow == 0 {
      NoneCut(L, heap, S, elems, N, pos, max, HEAP_SIZE);
    } else {
      var i := FirstCut(L, heap, S, elems, N, pos, max, HEAP_SIZE);
      TwoNeverCut(L, heap, S, elems, N, pos, max, i);
    }
    if Weighed(f, heap, S, elems, N, pos) {
      WeighedParts(f, heap, S, elems, N, pos);
      if overflow == 0 {
        UnclampedFrom(L, heap, S, N, max);
        UncutCheapest(f, heap, S, elems, N, pos, L, d);
      } else {
        var i := FirstCut(L, heap, S, elems, N, pos, max, HEAP_SIZE);
        CutIsHeavy(heap, S, elems, N, pos, f, L, max, i);
      }
      BestFrom(f, L, d, elems, N, max, overflow);
    }
  }

  lemma BestFrom(f: seq<int>, lens: seq<int>, d: Desc, elems: int, N: int, max: nat, overflow: int)
    requires 0 <= elems && 0 <= N < |f|
    requires if overflow == 0 then Cheapest(f, lens, d, elems) else f[N] >= HuffmanTree.Fib(max + 3)
    ensures BestOrHeavy(f, lens, d, elems, N, max, overflow)
  {
  }

  lemma FirstParts(L: seq<int>, heap: seq<int>, S: int, elems: int, N: int, pos: seq<int>, max: nat, cnt: seq<int>,
                   overflow: int)
    requires FirstLengths(L, heap, S, elems, N, pos, max, HEAP_SIZE, cnt, overflow)
    ensures Listed(heap, S, elems, N, pos) && Clamped(L, heap, S, elems, N, max, HEAP_SIZE)
      && 0 <= S < HEAP_SIZE == |heap|
    ensures overflow == Overflow(L, S, N, max, HEAP_SIZE) >= 0 && 0 <= N < |L| && 1 <= max
  {
    hide LeafCounts, Overflow, DadAt, Clamp;
  }

  /** Nothing was counted as too long, so nothing was cut. */
  lemma {:induction false} NoneCut(L: seq<int>, heap: seq<int>, S: int, elems: int, N: int, pos: seq<int>, max: nat,
    h: int)
    requires Listed(heap, S, elems, N, pos) && Clamped(L, heap, S, elems, N, max, HEAP_SIZE)
      && S < h <= HEAP_SIZE == |heap|
    requires 0 <= S && Overflow(L, S, N, max, h) == 0
    ensures CutFrom(L, heap, S, N, max, h)
    decreases h - S
  {
    if h > S + 1 {
      NoneCut(L, heap, S, elems, N, pos, max, h - 1);
      assert L[heap[h - 1]] == Clamp(L[DadAt(N, S, h - 1)] + 1, max);
      ClampIs(L[DadAt(N, S, h - 1)] + 1, max);
      hide Listed, Clamp, DadAt;
    }
  }

  /** The first place where a length was cut. */
  lemma {:induction false} FirstCut(L: seq<int>, heap: seq<int>, S: int, elems: int, N: int, pos: seq<int>, max: nat,
    h: int)
    returns (i: int)
    requires Listed(heap, S, elems, N, pos) && Clamped(L, heap, S, elems, N, max, HEAP_SIZE)
      && S < h <= HEAP_SIZE == |heap|
    requires 0 <= S && Overflow(L, S, N, max, h) > 0
    ensures CutFrom(L, heap, S, N, max, i) && S < i < h && 0 <= DadAt(N, S, i) <= N && L[DadAt(N, S, i)] >= max
    decreases h - S
  {
    if Overflow(L, S, N, max, h - 1) > 0 {
      i := FirstCut(L, heap, S, elems, N, pos, max, h - 1);
    } else {
      i := h - 1;
      CutHere(L, heap, S, elems, N, pos, max, h - 1);
    }
  }

  lemma CutHere(L: seq<int>, heap: seq<int>, S: int, elems: int, N: int, pos: seq<int>, max: nat, i: int)
    requires Listed(heap, S, elems, N, pos) && Clamped(L, heap, S, elems, N, max, HEAP_SIZE)
      && S <= i < HEAP_SIZE == |heap|
    requires 0 <= S && Overflow(L, S, N, max, i) == 0 && Overflow(L, S, N, max, i + 1) > 0
    ensures CutFrom(L, heap, S, N, max, i) && S < i && 0 <= DadAt(N, S, i) <= N && L[DadAt(N, S, i)] >= max
  {
    NoneCut(L, heap, S, elems, N, pos, max, i);
    assert 0 <= DadAt(N, S, i) <= N by { assert 0 <= heap[i] < N; }
    hide Listed, Clamp, DadAt;
  }

  /** Two leaves lie at depth 1. */
  lemma TwoNeverCut(L: seq<int>, heap: seq<int>, S: int, elems: int, N: int, pos: seq<int>, max: nat, i: int)
    requires Listed(heap, S, elems, N, pos) && CutFrom(L, heap, S, N, max, i) && i < HEAP_SIZE && 1 <= max
    requires 0 <= DadAt(N, S, i) <= N && L[DadAt(N, S, i)] >= max
    ensures N != elems
  {
    hide *;
    ListedSizes(heap, S, elems, N, pos);
    CutRoot(L, heap, S, N, max, i);
    RootDad(S, i, N);
  }

  lemma CutRoot(L: seq<int>, heap: seq<int>, S: int, N: int, max: nat, i: int)
    requires CutFrom(L, heap, S, N, max, i)
    ensures 0 <= S < i && 0 <= N < |L| && L[N] == 0
  {
  }

  lemma RootDad(S: int, i: int, N: int)
    ensures S < i < HEAP_SIZE == S + 3 ==> DadAt(N, S, i) == N
  {
  }

  lemma UnclampedFrom(L: seq<int>, heap: seq<int>, S: int, N: int, max: nat)
    requires CutFrom(L, heap, S, N, max, HEAP_SIZE) && |heap| == HEAP_SIZE
    ensures Unclamped(L, heap, S, N)
  {
    hide DadAt;
    forall i {:trigger heap[i]} | S < i < |heap|
      ensures 0 <= heap[i] < N && 0 <= DadAt(N, S, i) <= N && L[heap[i]] == L[DadAt(N, S, i)] + 1
    {
    }
  }

  lemma FirstLengthsEnd(L: seq<int>, heap: seq<int>, S: int, elems: int, N: int, pos: seq<int>, max: nat, cnt: seq<int>,
                        overflow: int) returns (half: nat)
    requires FirstLengths(L, heap, S, elems, N, pos, max, HEAP_SIZE, cnt, overflow)
    ensures -1 <= S && |heap| == HEAP_SIZE && overflow == 2 * half && LeafNo(heap, S, elems, HEAP_SIZE) == N - elems + 2
    ensures Excess(cnt, max, LeafNo(heap, S, elems, HEAP_SIZE), half)
  {
    half := FirstPass(L, heap, S, elems, N, pos, max);
    ListedInRange(L, heap, S, elems, N, pos, max);
    LeafNoIsTotal(L, heap, S, elems, max, HEAP_SIZE);
    CountsAddUp(L, heap, S, elems, max, HEAP_SIZE);
    forall b {:trigger cnt[b]} | 1 <= b <= max
      ensures cnt[b] >= 0
    {
      SumNonNegative(Only(b, max), L, heap, S, elems, HEAP_SIZE);
    }
    hide Used, Total, LeafNo, Overflow, NodeSum, Listed, Clamped;
  }

  lemma {:induction false} SumNonNegative(g: seq<int>, L: seq<int>, heap: seq<int>, S: int, elems: int, h: int)
    requires h <= |heap| && -1 <= S && forall c {:trigger g[c]} :: 0 <= c < |g| ==> g[c] >= 0
    ensures NodeSum(g, L, heap, S, 0, elems, h) >= 0
    decreases h - S
  {
    if h > S + 1 { SumNonNegative(g, L, heap, S, elems, h - 1); }
  }

  lemma NothingToRepair(L: seq<int>, heap: seq<int>, S: int, elems: int, N: int, pos: seq<int>, max: nat, cnt: seq<int>,
                        overflow: int)
    requires FirstLengths(L, heap, S, elems, N, pos, max, HEAP_SIZE, cnt, overflow) && overflow == 0
      && Excess(cnt, max, N - elems + 2, 0)
    requires forall y {:trigger pos[y]} :: 0 <= y < elems && pos[y] <= S ==> L[y] == 0
    ensures CompleteLengths(L, heap, cnt, S, elems, N, pos, max)
  {
    hide LeafCounts, Used, Pow2;
    forall y {:trigger L[y]} | 0 <= y < elems ensures if pos[y] > S then 1 <= L[y] <= max else L[y] == 0 {
      if pos[y] > S { assert heap[pos[y]] == y; }
    }
  }

  lemma ExcessKraft(cnt: seq<int>, max: nat, k: int)
    requires Excess(cnt, max, k, 0)
    ensures Used(cnt, max) == Pow2(max) && |cnt| == MAX_BITS + 1
  {
  }

  lemma LengthsDealt(L: seq<int>, heap: seq<int>, cnt: seq<int>, S: int, elems: int, N: int, pos: seq<int>, max: nat)
    requires Listed(heap, S, elems, N, pos) && N < |L| && max <= MAX_BITS && |cnt| == MAX_BITS + 1
    requires LeafCounts(L, heap, S, elems, max, HEAP_SIZE) == cnt && Used(cnt, max) == Pow2(max)
    requires forall i {:trigger heap[i]} :: S < i < HEAP_SIZE && 0 <= heap[i] < elems ==> 1 <= L[heap[i]] <= max
    requires forall y {:trigger pos[y]} :: 0 <= y < elems && pos[y] <= S ==> L[y] == 0
    ensures CompleteLengths(L, heap, cnt, S, elems, N, pos, max)
  {
    hide LeafCounts, Used, Pow2;
    forall y {:trigger L[y]} | 0 <= y < elems ensures if pos[y] > S then 1 <= L[y] <= max else L[y] == 0 {
      if pos[y] > S { assert heap[pos[y]] == y; }
    }
  }

  // ----- codes -------------------------------------------------------------------------------------------------------

  /** bi_reverse; the bit or-ed in falls on a zero. */
  method BiReverse(code0: nat, len0: int) returns (r: nat)
    requires 1 <= len0
    ensures r == Rev(code0, len0)
  {
    hide Rev, Shr, Pow2;
    var res, code, len := 0, code0, len0;
    assert Rev(code0, 0) == 0 && Shr(code0, 0) == code0 by { RevNothing(code0); }
    while true
      invariant 1 <= len <= len0 && code == Shr(code0, len0 - len) && res == 2 * Rev(code0, len0 - len)
      decreases len
    {
      RevPrefixLow(code0, len0 - len);
      ShrNext(code0, len0 - len);
      res := res + code % 2;
      code, res := code / 2, res * 2;
      len := len - 1;
      if len == 0 { break; }
    }
    r := res / 2;
  }

  lemma RevNothing(c: nat)
    ensures Rev(c, 0) == 0 && Shr(c, 0) == c
  {
  }

  lemma ShrNext(c: nat, k: nat)
    ensures Shr(c, k + 1) == Shr(c, k) / 2
  {
  }

  /** The next code of each length, when the symbols before n have theirs. */
  ghost predicate NextCodes(next: seq<int>, lens: seq<int>, n: int) {
    && |next| == MAX_BITS + 1 && 0 <= n <= |lens|
    && forall l {:trigger next[l]} :: 1 <= l <= MAX_BITS ==>
         next[l] == FirstCode(CountsOf(lens), l) + Count(lens[..n], l)
  }

  lemma NextCodeUsed(next: seq<int>, lens: seq<int>, n: int)
    requires NextCodes(next, lens, n) && Lengths(lens) && n < |lens|
    ensures 0 <= lens[n] <= MAX_BITS && (lens[n] == 0 ==> NextCodes(next, lens, n + 1))
    ensures lens[n] != 0 ==>
      next[lens[n]] == Code(lens, n) && 0 <= Code(lens, n) && NextCodes(next[lens[n] := next[lens[n]] + 1], lens, n + 1)
  {
    hide Count, FirstCode, CountsOf;
    forall l
      ensures Count(lens[..n + 1], l) == Count(lens[..n], l) + if lens[n] == l then 1 else 0
    {
      CountStep(lens, n, l);
    }
    if lens[n] != 0 { CodeInRange(lens, n); }
  }

  /** v is the code of symbol y as it is sent, first bit lowest. */
  ghost predicate CodeAt(v: int, lens: seq<int>, y: int)
    requires 0 <= y < |lens| && 1 <= lens[y] <= MAX_BITS
  {
    0 <= Code(lens, y) && v == Rev(Code(lens, y), lens[y])
  }

  /** The symbols before n that have a length have their codes. */
  ghost predicate CodesUpTo(fc: seq<int>, lens: seq<int>, n: int) {
    && 0 <= n <= |lens| <= |fc| && Lengths(lens)
    && forall y {:trigger fc[y]} :: 0 <= y < n && lens[y] != 0 ==> CodeAt(fc[y], lens, y)
  }

  lemma {:induction false} FirstCodeNext(cnt: seq<int>, l: nat)
    requires 1 <= l && l + 1 < |cnt|
    ensures FirstCode(cnt, l + 1) == 2 * (FirstCode(cnt, l) + cnt[l])
  {
  }

  /** The codes for lengths that are counted in blCount; the last code is all ones when the lengths are complete. */
  method GenCodes(fc: array<int>, dl: array<int>, blCount: array<int>, maxCode: int)
    requires fc != dl && fc != blCount && dl != blCount && 0 <= maxCode < dl.Length && maxCode < fc.Length
    requires Lengths(dl[..maxCode + 1]) && blCount[..] == CountsOf(dl[..maxCode + 1])
    modifies fc
    ensures CodesUpTo(fc[..], dl[..maxCode + 1], maxCode + 1)
    ensures forall y {:trigger fc[y]} :: 0 <= y < fc.Length && (y > maxCode || dl[y] == 0) ==> fc[y] == old(fc[y])
  {
    hide *;
    ghost var lens, cnt := dl[..maxCode + 1], blCount[..];
    CountsSize(lens);
    var nextCode := new int[16];
    var code, bits := 0, 1;
    FirstCodeStarts(cnt);
    while bits <= 15
      invariant 1 <= bits <= 16 && blCount[..] == cnt && dl[..maxCode + 1] == lens && fc[..] == old(fc[..])
      invariant bits <= 15 ==> 2 * (code + blCount[bits - 1]) == FirstCode(cnt, bits)
      invariant bits > 1 ==> code == FirstCode(cnt, bits - 1)
      invariant forall l {:trigger nextCode[l]} :: 1 <= l < bits ==> nextCode[l] == FirstCode(cnt, l)
    {
      code := (code + blCount[bits - 1]) * 2;
      nextCode[bits] := code;
      if bits < 15 { FirstCodeNext(cnt, bits); }
      bits := bits + 1;
    }
    LastCode(cnt, 15);
    assert Used(cnt, 15) == Pow2(15) ==> code + blCount[15] - 1 == Pow2(15) - 1;
    NextCodesStart(nextCode[..], lens, cnt);
    CodesStart(fc[..], lens);
    var n := 0;
    while n <= maxCode
      invariant 0 <= n <= maxCode + 1 && blCount[..] == cnt && dl[..maxCode + 1] == lens && nextCode.Length == 16
      invariant NextCodes(nextCode[..], lens, n) && CodesUpTo(fc[..], lens, n)
      invariant forall y {:trigger fc[y]} :: 0 <= y < fc.Length && (y >= n || dl[y] == 0) ==> fc[y] == old(fc[y])
    {
      NextCodeUsed(nextCode[..], lens, n);
      CodesMore(fc[..], lens, n);
      var len := dl[n];
      assert len == lens[n];
      if len != 0 {
        ghost var next, codes := nextCode[..], fc[..];
        var c := nextCode[len];
        nextCode[len] := nextCode[len] + 1;
        assert nextCode[..] == next[len := next[len] + 1];
        var r := BiReverse(c, len);
        fc[n] := r;
        assert fc[..] == codes[n := r];
      }
      n := n + 1;
    }
  }

  lemma CountsSize(lens: seq<int>)
    ensures |CountsOf(lens)| == 16 && MAX_BITS == 15
  {
  }

  lemma FirstCodeStarts(cnt: seq<int>)
    requires |cnt| == 16 && cnt[0] == 0
    ensures FirstCode(cnt, 1) == 0
  {
  }

  lemma NextCodesStart(next: seq<int>, lens: seq<int>, cnt: seq<int>)
    requires |next| == 16 && cnt == CountsOf(lens) && forall l {:trigger next[l]} :: 1 <= l < 16 ==>
      next[l] == FirstCode(cnt, l)
    ensures NextCodes(next, lens, 0)
  {
    hide Count, FirstCode;
    assert lens[..0] == [];
    forall l ensures Count(lens[..0], l) == 0 { }
  }

  lemma CodesStart(fc: seq<int>, lens: seq<int>)
    requires Lengths(lens) && |lens| <= |fc|
    ensures CodesUpTo(fc, lens, 0)
  {
  }

  lemma CodesMore(fc: seq<int>, lens: seq<int>, n: int)
    requires CodesUpTo(fc, lens, n) && n < |lens|
    ensures n < |fc| && (lens[n] == 0 ==> CodesUpTo(fc, lens, n + 1))
    ensures lens[n] != 0 && 0 <= Code(lens, n) ==> CodesUpTo(fc[n := Rev(Code(lens, n), lens[n])], lens, n + 1)
  {
    hide Code, Rev;
    if lens[n] != 0 && 0 <= Code(lens, n) { assert CodeAt(Rev(Code(lens, n), lens[n]), lens, n); }
    hide CodeAt;
  }

  // ----- the tree ----------------------------------------------------------------------------------------------------

  /** heap, heap_len, heap_max, depth and bl_count of deflate_state. */
  class TreeBuilder {
    const heap: array<int>
    const depth: array<int>
    const blCount: array<int>
    var heapLen: int
    var heapMax: int

    constructor ()
      ensures fresh(heap) && fresh(depth) && fresh(blCount) && DepthsFit()
      ensures heap != depth && heap != blCount && depth != blCount
      ensures heap.Length == depth.Length == HEAP_SIZE && blCount.Length == MAX_BITS + 1
    {
      heap, depth, blCount := new int[HEAP_SIZE], new int[HEAP_SIZE](_ => 0), new int[MAX_BITS + 1];
      heapLen, heapMax := 0, HEAP_SIZE;
    }

    ghost predicate Arrays(fc: array<int>, dl: array<int>)
    {
      && heap != depth && heap != blCount && depth != blCount && fc != dl
      && fc != heap && fc != depth && fc != blCount && dl != heap && dl != depth && dl != blCount
      && heap.Length == depth.Length == HEAP_SIZE && blCount.Length == MAX_BITS + 1
    }

    predicate Smaller(fc: array<int>, n: int, m: int)
      requires 0 <= n < fc.Length && 0 <= m < fc.Length && n < depth.Length && m < depth.Length
      reads fc, depth
    {
      fc[n] < fc[m] || (fc[n] == fc[m] && depth[n] <= depth[m])
    }

    /** w holds the order of smaller() as numbers, for the nodes there are. */
    ghost predicate Weighs(fc: array<int>, w: seq<int>)
      reads fc, depth
    {
      Weighty(fc[..], depth[..], |w|) && w == Weights(fc[..], depth[..], |w|)
    }

    lemma SmallerIsLighter(fc: array<int>, w: seq<int>, n: int, m: int)
      requires Weighs(fc, w) && 0 <= n < |w| && 0 <= m < |w|
      ensures |w| <= fc.Length && |w| <= depth.Length && (Smaller(fc, n, m) <==> w[n] <= w[m])
    {
    }

    /** The lighter of the two sons that begin at j0, if there are two. */
    method LighterSon(fc: array<int>, j0: int, ghost w: seq<int>, ghost h: seq<int>, ghost k: int, ghost v: int)
      returns (j: int)
      requires Weighs(fc, w) && 0 <= heapLen < heap.Length && 1 <= k && j0 == 2 * k <= heapLen && Fits(h, w, heapLen)
        && Hole(heap[..], h, k, v)
      ensures j0 <= j <= j0 + 1 && j <= heapLen < |h| == heap.Length && heap[j] == h[j] && 0 <= h[j] < |w| && h[k] == v
        && 0 <= h[j0] < |w|
      ensures w[h[j]] <= w[h[j0]] && (j0 + 1 <= heapLen ==> 0 <= h[j0 + 1] < |w| && w[h[j]] <= w[h[j0 + 1]])
    {
      hide Weighs;
      j := j0;
      assert heap[j] == h[j];
      if j < heapLen {
        assert heap[j + 1] == h[j + 1];
        SmallerIsLighter(fc, w, heap[j + 1], heap[j]);
        if Smaller(fc, heap[j + 1], heap[j]) { j := j + 1; }
      }
    }

    /** pqdownheap: moves entry k down to its place; entries from lo on come to be in order. */
    method Pqdownheap(fc: array<int>, k0: int, ghost w: seq<int>, ghost lo: int)
      requires heap != fc && heap != depth && Weighs(fc, w) && 0 <= heapLen < heap.Length && 1 <= k0 <= heapLen
      requires OrderedButAt(heap[..], w, heapLen, lo, k0)
      modifies heap
      ensures OrderedFrom(heap[..], w, heapLen, lo) && Shuffled(old(heap[..]), heap[..], 1, heapLen + 1)
    {
      hide *;
      ghost var h, start := heap[..], heap[..];
      ButAtFits(h, w, heapLen, lo, k0);
      ShuffledReflexive(h, 1, heapLen + 1);
      NoHole(h, k0);
      FitsCount(h, w, heapLen, k0);
      var k := k0;
      var v := heap[k];
      var j := 2 * k;
      while j <= heapLen
        invariant 1 <= k <= heapLen && j == 2 * k && 0 <= v < |w| && Fits(h, w, heapLen)
        invariant OrderedButAt(h, w, heapLen, lo, k) && Hole(heap[..], h, k, v) && Shuffled(start, h, 1, heapLen + 1)
        decreases heapLen - k
      {
        j := LighterSon(fc, j, w, h, k, v);
        SmallerIsLighter(fc, w, v, heap[j]);
        if Smaller(fc, v, heap[j]) { break; }
        ghost var before := heap[..];
        h := SinkOn(start, before, h, w, heapLen, lo, k, j, v);
        heap[k] := heap[j];
        assert heap[..] == before[k := before[j]];
        k := j;
        j := 2 * j;
      }
      HoleFilled(heap[..], h, k, v);
      SinkStops(h, w, heapLen, lo, k, j);
      heap[k] := v;
      assert heap[..] == h;
    }

    /** Frequencies are unsigned shorts and heights bytes. */
    ghost predicate Ranges(fc: array<int>)
      reads fc, depth
    {
      && (forall x {:trigger fc[x]} :: 0 <= x < fc.Length ==> 0 <= fc[x] < 0x10000)
      && forall x {:trigger depth[x]} :: 0 <= x < depth.Length ==> 0 <= depth[x] < 256
    }

    /** Depths are bytes, whatever tree was built. */
    ghost predicate DepthsFit()
      reads depth
    {
      forall x {:trigger depth[x]} :: 0 <= x < depth.Length ==> 0 <= depth[x] < 256
    }

    lemma ArraysDiffer(fc: array<int>, dl: array<int>)
      requires Arrays(fc, dl)
      ensures fc != heap && fc != depth && fc != blCount && dl != heap && dl != depth && dl != blCount && fc != dl
      ensures heap != depth && heap.Length == depth.Length == HEAP_SIZE && 2 * L_CODES < HEAP_SIZE
      ensures heap != blCount && depth != blCount && blCount.Length == MAX_BITS + 1
    {
    }

    lemma DepthsOf(fc: array<int>, dl: array<int>)
      requires Arrays(fc, dl) && Ranges(fc)
      ensures DepthsFit() && depth != blCount && depth != heap && depth != fc && depth != dl
    {
    }

    lemma RangesWeigh(fc: array<int>, count: int)
      requires Ranges(fc) && 0 <= count <= fc.Length && count <= depth.Length
      ensures |Weights(fc[..], depth[..], count)| == count && Weighs(fc, Weights(fc[..], depth[..], count))
      ensures forall x {:trigger Weights(fc[..], depth[..], count)[x]} ::
        0 <= x < count ==> Weights(fc[..], depth[..], count)[x] >= 0
    {
    }

    /** The nodes as far as they are joined, and the heap of those that are not. */
    ghost predicate Heaped(fc: array<int>, dl: array<int>, elems: int, N: int, pos: seq<int>, k: int)
      reads this, heap, depth, fc, dl
    {
      && Arrays(fc, dl) && Ranges(fc) && N < fc.Length && N < HEAP_SIZE
           && Growing(heap[..], heapLen, heapMax, dl[..], elems, N, pos, k)
      && |heap[..]| == HEAP_SIZE && Ordered(heap[..], Weights(fc[..], depth[..], N + 1), heapLen)
    }

    /** The smallest node is taken off the heap: pqremove. */
    method Pqremove(fc: array<int>, ghost w: seq<int>) returns (top: int)
      requires heap != fc && heap != depth && Weighs(fc, w) && 2 <= heapLen < heap.Length
        && Ordered(heap[..], w, heapLen)
      modifies this`heapLen, heap
      ensures heapLen == old(heapLen) - 1 && Ordered(heap[..], w, heapLen) && top in old(Contents(heap[..], heapLen))
        && Least(w, old(Contents(heap[..], heapLen)), top)
      ensures Contents(heap[..], heapLen) == old(Contents(heap[..], heapLen)) - multiset{top}
      ensures forall i {:trigger heap[i]} :: heapLen < i < heap.Length ==> heap[i] == old(heap[i])
    {
      hide *;
      ghost var before := heap[..];
      LastAtRoot(before, w, heapLen);
      LeastOfAll(before, w, heapLen);
      top := heap[1];
      heap[1] := heap[heapLen];
      heapLen := heapLen - 1;
      assert heap[..] == before[1 := before[heapLen + 1]];
      ghost var mid := heap[..];
      Pqdownheap(fc, 1, w, 1);
      SameContents(mid, heap[..], heapLen);
      WholeHeap(heap[..], w, heapLen);
    }

    /** The root is replaced, and the heap put in order. */
    method ReplaceRoot(fc: array<int>, node: int, ghost w: seq<int>)
      requires heap != fc && heap != depth && Weighs(fc, w) && 1 <= heapLen < heap.Length
        && Ordered(heap[..], w, heapLen) && 0 <= node < |w|
      modifies heap
      ensures Ordered(heap[..], w, heapLen)
        && Contents(heap[..], heapLen) == old(Contents(heap[..], heapLen)) - multiset{old(heap[1])} + multiset{node}
      ensures forall i {:trigger heap[i]} :: heapLen < i < heap.Length ==> heap[i] == old(heap[i])
    {
      hide *;
      ghost var before := heap[..];
      NewRoot(before, w, heapLen, node);
      heap[1] := node;
      assert heap[..] == before[1 := node];
      ghost var mid := heap[..];
      Pqdownheap(fc, 1, w, 1);
      SameContents(mid, heap[..], heapLen);
      WholeHeap(heap[..], w, heapLen);
    }

    /** The frequency of a father is the sum of its sons', its height one more than theirs. */
    method NewWeight(fc: array<int>, n: int, m: int, node: int, ghost w: seq<int>) returns (ghost w': seq<int>)
      requires fc != depth && Ranges(fc) && |w| == node && Weighs(fc, w) && 0 <= n < node && 0 <= m < node
        && node < fc.Length && node < depth.Length
      modifies fc, depth
      ensures Ranges(fc) && |w'| == node + 1 && Weighs(fc, w')
        && (forall x {:trigger w'[x]} :: 0 <= x < node ==> w'[x] == w[x]) && w'[node] >= 0
      ensures fc[node] == old((fc[n] + fc[m]) % WRAP16) && fc[..node] == old(fc[..node])
        && depth[node] == old(((if depth[n] >= depth[m] then depth[n] else depth[m]) + 1) % 256)
    {
      fc[node] := (fc[n] + fc[m]) % WRAP16;
      depth[node] := ((if depth[n] >= depth[m] then depth[n] else depth[m]) + 1) % 256;
      w' := Weights(fc[..], depth[..], node + 1);
    }

    /** The two nodes taken are listed, and their father's entries made. */
    method MakeFather(fc: array<int>, dl: array<int>, n: int, m: int, node: int, ghost w: seq<int>)
      returns (ghost w': seq<int>)
      requires heap != fc && heap != dl && heap != depth && fc != depth && fc != dl && dl != depth
        && heap.Length == HEAP_SIZE == depth.Length
      requires Ranges(fc) && |w| == node && Weighs(fc, w) && 0 <= n < node && 0 <= m < node && node < fc.Length
        && node < dl.Length && node < HEAP_SIZE
      requires 1 <= heapLen && heapLen + 2 < heapMax <= HEAP_SIZE && Ordered(heap[..], w, heapLen)
      modifies this`heapMax, heap, depth, fc, dl
      ensures Ranges(fc) && |w'| == node + 1 && Weighs(fc, w') && Ordered(heap[..], w', heapLen)
        && Contents(heap[..], heapLen) == old(Contents(heap[..], heapLen))
      ensures heapMax == old(heapMax) - 2 && heap[..] == old(heap[..])[old(heapMax) - 1 := n][heapMax := m]
        && dl[..] == old(dl[..])[n := node][m := node] && fc[..node] == old(fc[..node])
      ensures fc[node] == old((fc[n] + fc[m]) % WRAP16)
    {
      hide *;
      ghost var hp, d := heap[..], dl[..];
      heapMax := heapMax - 1;
      heap[heapMax] := n;
      heapMax := heapMax - 1;
      heap[heapMax] := m;
      WriteBehind(hp, w, heapLen, heapMax + 1, n);
      WriteBehind(hp[heapMax + 1 := n], w, heapLen, heapMax, m);
      assert heap[..] == hp[heapMax + 1 := n][heapMax := m];
      w' := NewWeight(fc, n, m, node, w);
      OrderedMore(heap[..], w, w', heapLen);
      dl[n] := node;
      dl[m] := node;
      assert dl[..] == d[n := node][m := node];
    }

    /** The two lightest nodes are listed, and their father takes their place in the heap. */
    method TakeTwo(fc: array<int>, dl: array<int>, node: int, ghost w: seq<int>)
      returns (n: int, m: int, ghost w': seq<int>)
      requires heap != fc && heap != dl && heap != depth && fc != depth && fc != dl && dl != depth
        && heap.Length == HEAP_SIZE == depth.Length
      requires Ranges(fc) && |w| == node && Weighs(fc, w) && node < fc.Length && node < dl.Length && node < HEAP_SIZE
      requires 2 <= heapLen && heapLen + 1 < heapMax <= HEAP_SIZE && Ordered(heap[..], w, heapLen)
      requires forall x {:trigger Contents(heap[..], heapLen)[x]} :: x in Contents(heap[..], heapLen) ==> 0 <= x < node
      modifies this`heapLen, this`heapMax, heap, depth, fc, dl
      ensures Ranges(fc) && |w'| == node + 1 && Weighs(fc, w') && Ordered(heap[..], w', heapLen)
      ensures heapLen == old(heapLen) - 1 && heapMax == old(heapMax) - 2 && 0 <= n < node && 0 <= m < node
      ensures n in old(Contents(heap[..], heapLen)) && m in old(Contents(heap[..], heapLen)) - multiset{n}
      ensures Contents(heap[..], heapLen)
        == old(Contents(heap[..], heapLen)) - multiset{n} - multiset{m} + multiset{node}
      ensures heap[old(heapMax) - 1] == n && heap[heapMax] == m
      ensures forall i {:trigger heap[i]} :: old(heapMax) <= i < HEAP_SIZE ==> heap[i] == old(heap[i])
      ensures dl[..] == old(dl[..])[n := node][m := node] && fc[..node] == old(fc[..node])
      ensures fc[node] == old((fc[n] + fc[m]) % WRAP16)
      ensures Least(w, old(Contents(heap[..], heapLen)), n)
        && Least(w, old(Contents(heap[..], heapLen)) - multiset{n}, m)
    {
      hide *;
      n, m, w' := ListTwo(fc, dl, node, w);
      ReplaceRoot(fc, node, w');
    }

    /** The lightest is taken off the heap, the next one is left at its root; both are listed. */
    method ListTwo(fc: array<int>, dl: array<int>, node: int, ghost w: seq<int>)
      returns (n: int, m: int, ghost w': seq<int>)
      requires heap != fc && heap != dl && heap != depth && fc != depth && fc != dl && dl != depth
        && heap.Length == HEAP_SIZE == depth.Length
      requires Ranges(fc) && |w| == node && Weighs(fc, w) && node < fc.Length && node < dl.Length && node < HEAP_SIZE
      requires 2 <= heapLen && heapLen + 1 < heapMax <= HEAP_SIZE && Ordered(heap[..], w, heapLen)
      requires forall x {:trigger Contents(heap[..], heapLen)[x]} :: x in Contents(heap[..], heapLen) ==> 0 <= x < node
      modifies this`heapLen, this`heapMax, heap, depth, fc, dl
      ensures Ranges(fc) && |w'| == node + 1 && Weighs(fc, w') && Ordered(heap[..], w', heapLen)
      ensures heapLen == old(heapLen) - 1 && heapMax == old(heapMax) - 2 && 0 <= n < node && 0 <= m < node
      ensures n in old(Contents(heap[..], heapLen)) && m in old(Contents(heap[..], heapLen)) - multiset{n}
      ensures Contents(heap[..], heapLen) == old(Contents(heap[..], heapLen)) - multiset{n} && heap[1] == m
      ensures heap[old(heapMax) - 1] == n && heap[heapMax] == m
      ensures forall i {:trigger heap[i]} :: old(heapMax) <= i < HEAP_SIZE ==> heap[i] == old(heap[i])
      ensures dl[..] == old(dl[..])[n := node][m := node] && fc[..node] == old(fc[..node])
      ensures fc[node] == old((fc[n] + fc[m]) % WRAP16)
      ensures Least(w, old(Contents(heap[..], heapLen)), n)
        && Least(w, old(Contents(heap[..], heapLen)) - multiset{n}, m)
    {
      hide *;
      ghost var c0 := Contents(heap[..], heapLen);
      n := Pqremove(fc, w);
      ghost var hp, top := heap[..], heapMax;
      LeastOfAll(hp, w, heapLen);
      m := heap[1];
      assert m in Contents(hp, heapLen);
      OfTheRest(c0, n, m);
      w' := MakeFather(fc, dl, n, m, node, w);
      BackListed(hp, heap[..], top, heapMax, n, m);
    }

    static lemma BackListed(hp: seq<int>, hp': seq<int>, top: int, low: int, n: int, m: int)
      requires 1 < low == top - 2 && top <= |hp| == |hp'| && hp' == hp[top - 1 := n][low := m]
      ensures hp'[top - 1] == n && hp'[low] == m && hp'[1] == hp[1]
      ensures forall i {:trigger hp'[i]} :: top <= i < |hp| ==> hp'[i] == hp[i]
    {
    }

    static lemma OfTheRest(c: multiset<int>, n: int, m: int)
      requires n in c && m in c - multiset{n}
      ensures m in c
    {
    }

    /** One turn of the loop that joins. */
    method JoinTwo(fc: array<int>, dl: array<int>, node: int, ghost elems: int, ghost pos: seq<int>, ghost k: int)
      returns (ghost pos': seq<int>, ghost n: int, ghost m: int)
      requires Heaped(fc, dl, elems, node - 1, pos, k) && heapLen >= 2 && node < fc.Length && node < dl.Length
        && node < HEAP_SIZE && 0 <= node
      modifies this`heapLen, this`heapMax, heap, depth, fc, dl
      ensures Heaped(fc, dl, elems, node, pos', k) && heapLen == old(heapLen) - 1 && |pos'| == |pos|
        && heapMax == old(heapMax) - 2
      ensures forall y {:trigger pos'[y]} :: 0 <= y < |pos| && y < node ==> (pos'[y] == -2 <==> pos[y] == -2)
      ensures fc[..node] == old(fc[..node])
      ensures NextJoin(old(fc[..]), old(heap[..]), old(heapMax), node - 1, pos, n, m, fc[..], heap[..], pos')
    {
      hide *;
      ghost var f0, depth0 := fc[..], depth[..];
      HeapedParts(fc, dl, elems, node - 1, pos, k);
      ghost var hp0, len0, max0, dl0, w := heap[..], heapLen, heapMax, dl[..], Weights(fc[..], depth[..], node);
      RangesWeigh(fc, node);
      GrowingSizes(hp0, len0, max0, dl0, elems, node - 1, pos, k);
      AllInHeap(hp0, len0, max0, dl0, elems, node - 1, pos, k);
      GrowingParts(hp0, len0, max0, dl0, elems, node - 1, pos, k);
      WeightsWeighty(fc, node);
      ghost var w';
      n, m, w' := TakeTwo(fc, dl, node, w);
      Lightest(f0, depth0, pos, node - 1, Contents(hp0, len0), n, m);
      pos' := pos[n := max0 - 1][m := max0 - 2][node := -1];
      PlacedAlso(pos, n, m, node, max0);
      Joined(hp0, len0, max0, dl0, elems, node - 1, pos, k, n, m, heap[..], dl[..], pos');
      HeapedAgain(fc, dl, elems, node, pos', k, w');
      NextJoinIs(f0, hp0, max0, node - 1, pos, n, m, fc[..], heap[..], pos');
    }

    lemma WeightsWeighty(fc: array<int>, count: int)
      requires Ranges(fc) && 0 <= count <= fc.Length && count <= depth.Length
      ensures Weighty(fc[..], depth[..], count)
    {
    }

    lemma HeapedParts(fc: array<int>, dl: array<int>, elems: int, N: int, pos: seq<int>, k: int)
      requires Heaped(fc, dl, elems, N, pos, k)
      ensures Arrays(fc, dl) && Ranges(fc) && N < fc.Length && N < HEAP_SIZE && -1 <= N
        && Growing(heap[..], heapLen, heapMax, dl[..], elems, N, pos, k)
      ensures fc.Length >= 0 && N + 1 <= |depth[..]| && Ordered(heap[..], Weights(fc[..], depth[..], N + 1), heapLen)
      ensures heap != fc && heap != dl && heap != depth && fc != depth && fc != dl && dl != depth
        && heap.Length == HEAP_SIZE == depth.Length
    {
    }

    lemma HeapedRoom(fc: array<int>, dl: array<int>, elems: int, N: int, pos: seq<int>, k: int)
      requires Heaped(fc, dl, elems, N, pos, k) && heapLen >= 2
      ensures heapMax == HEAP_SIZE - 2 * (N - elems + 1)
    {
      hide Contents;
    }

    lemma FrequenciesFit(fc: array<int>)
      requires Ranges(fc)
      ensures forall y {:trigger fc[..][y]} :: 0 <= y < fc.Length ==> 0 <= fc[..][y] < WRAP16
    {
    }

    lemma HeapedAgain(fc: array<int>, dl: array<int>, elems: int, N: int, pos: seq<int>, k: int, w: seq<int>)
      requires Arrays(fc, dl) && Ranges(fc) && N < fc.Length && N < HEAP_SIZE
        && Growing(heap[..], heapLen, heapMax, dl[..], elems, N, pos, k)
      requires Weighs(fc, w) && |w| == N + 1 && Ordered(heap[..], w, heapLen)
      ensures Heaped(fc, dl, elems, N, pos, k)
    {
    }

    /** Every symbol that occurs is marked, and those not marked have length 0. */
    static ghost predicate Marked(freq: seq<int>, pos: seq<int>, dl: seq<int>, n: int) {
      && 0 <= n <= |freq| && n <= |pos| && n <= |dl|
      && (forall y {:trigger freq[y]} {:trigger pos[y]} :: 0 <= y < n && freq[y] != 0 ==> pos[y] == -1)
      && (forall y {:trigger pos[y]} {:trigger dl[y]} :: 0 <= y < n && pos[y] < -1 ==> dl[y] == 0)
    }

    /** Symbols are marked if they occur, and not if they do not. */
    static ghost predicate Absent(freq: seq<int>, pos: seq<int>, n: int) {
      && 0 <= n <= |freq| && n <= |pos|
      && forall y {:trigger pos[y]} :: 0 <= y < n ==> (pos[y] == -2 && freq[y] == 0) || (pos[y] == -1 && freq[y] != 0)
    }

    /** The symbols that occur go on the heap, and others besides if there are not two of them. */
    method FillHeap(fc: array<int>, dl: array<int>, elems: int, d: Desc)
      returns (maxCode: int, opt: int, stat: int, ghost pos: seq<int>)
      requires Arrays(fc, dl) && Ranges(fc) && 3 <= elems <= L_CODES && elems <= fc.Length && elems <= dl.Length
      requires Described(d, elems)
      modifies this`heapLen, this`heapMax, heap, depth, fc, dl
      ensures Ranges(fc) && 2 <= heapLen && Growing(heap[..], heapLen, heapMax, dl[..], elems, elems - 1, pos, heapLen)
      ensures 0 <= maxCode < elems <= |pos| && (forall y {:trigger pos[y]} :: maxCode < y < elems ==> pos[y] == -2)
        && Marked(fc[..], pos, dl[..], elems)
      ensures Forced(old(fc[..]), fc[..], elems, heapLen) && ForcedCosts(old(fc[..]), fc[..], d, elems, opt, stat)
      ensures Absent(fc[..], pos, elems)
    {
      hide Contents, Tops, Growing, Filling, ForcedCosts, Forced, Weighted, Described;
      heapLen, heapMax, maxCode := 0, HEAP_SIZE, -1;
      pos := seq(HEAP_SIZE, i => -2);
      ghost var freq := fc[..];
      FillingStarts(heap[..], elems, pos);
      for n := 0 to elems
        invariant fc[..] == freq && Ranges(fc) && Filling(heap[..], heapLen, pos, elems, maxCode) && maxCode < n
          && heapMax == HEAP_SIZE
        invariant |pos| == HEAP_SIZE && Marked(freq, pos, dl[..], n) && Absent(freq, pos, n)
          && forall y {:trigger pos[y]} ::
          n <= y < HEAP_SIZE ==> pos[y] == -2
      {
        FillingSizes(heap[..], heapLen, pos, elems, maxCode);
        if fc[n] != 0 {
          ghost var hp := heap[..];
          OneMoreTop(hp, heapLen, pos, elems, maxCode, n, n);
          heapLen := heapLen + 1;
          maxCode := n;
          heap[heapLen] := n;
          depth[n] := 0;
          pos := pos[n := -1];
          assert heap[..] == hp[heapLen := n];
        } else {
          dl[n] := 0;
        }
      }
      maxCode, opt, stat, pos := ForceTwo(fc, dl, elems, maxCode, d, pos);
      FillingSizes(heap[..], heapLen, pos, elems, maxCode);
      Filled(heap[..], heapLen, pos, elems, maxCode, dl[..]);
    }

    /** At least two symbols are given codes; what is forced is taken off the costs beforehand. */
    method ForceTwo(fc: array<int>, dl: array<int>, elems: int, maxCode0: int, d: Desc, ghost pos0: seq<int>)
      returns (maxCode: int, opt: int, stat: int, ghost pos: seq<int>)
      requires Arrays(fc, dl) && Ranges(fc) && 3 <= elems <= L_CODES && elems <= fc.Length && elems <= dl.Length
      requires Filling(heap[..], heapLen, pos0, elems, maxCode0) && Described(d, elems)
      requires Marked(fc[..], pos0, dl[..], elems) && Absent(fc[..], pos0, elems)
      modifies this`heapLen, heap, depth, fc
      ensures Ranges(fc) && 2 <= heapLen && Filling(heap[..], heapLen, pos, elems, maxCode)
        && Marked(fc[..], pos, dl[..], elems)
      ensures Forced(old(fc[..]), fc[..], elems, heapLen) && ForcedCosts(old(fc[..]), fc[..], d, elems, opt, stat)
      ensures Absent(fc[..], pos, elems)
    {
      hide Contents, Tops, Filling, ForcedCosts, Weighted;
      maxCode, opt, stat, pos := maxCode0, 0, 0, pos0;
      ghost var freq := fc[..];
      NothingForced(freq, d, elems);
      while heapLen < 2
        invariant Ranges(fc) && Filling(heap[..], heapLen, pos, elems, maxCode) && Marked(fc[..], pos, dl[..], elems)
        invariant Absent(fc[..], pos, elems) && ForcedCosts(freq, fc[..], d, elems, opt, stat)
        invariant Forced(freq, fc[..], elems, if heapLen < 2 then 2 else heapLen)
        decreases 2 - heapLen
      {
        ghost var hp, now := heap[..], fc[..];
        FillingSizes(hp, heapLen, pos, elems, maxCode);
        var node := 0;
        if maxCode < 2 { node := maxCode + 1; }
        OneMoreTop(hp, heapLen, pos, elems, maxCode, node, if node > maxCode then node else maxCode);
        if maxCode < 2 { maxCode := node; }
        heapLen := heapLen + 1;
        heap[heapLen] := node;
        assert pos[node] == -2;
        fc[node] := 1;
        depth[node] := 0;
        OneForced(freq, now, d, elems, opt, stat, node);
        opt := opt - 1;
        if d.stree != [] { stat := stat - d.stree[node]; }
        pos := pos[node := -1];
        assert heap[..] == hp[heapLen := node] && fc[..] == now[node := 1];
      }
    }

    /** Puts the whole heap in order, from the last father down to the root. */
    method Heapify(fc: array<int>, dl: array<int>, ghost elems: int, ghost pos: seq<int>, ghost k: int)
      requires Arrays(fc, dl) && Ranges(fc) && elems <= fc.Length
        && Growing(heap[..], heapLen, heapMax, dl[..], elems, elems - 1, pos, k)
      modifies heap
      ensures Heaped(fc, dl, elems, elems - 1, pos, k)
    {
      hide *;
      ghost var hp := heap[..];
      ArraysDiffer(fc, dl);
      GrowingSizes(hp, heapLen, heapMax, dl[..], elems, elems - 1, pos, k);
      ghost var w := Weights(fc[..], depth[..], elems);
      RangesWeigh(fc, elems);
      FrontFits(hp, heapLen, heapMax, dl[..], elems, elems - 1, pos, k, w);
      LeavesOrdered(hp, w, heapLen);
      var n := heapLen / 2;
      while n >= 1
        invariant 0 <= n <= heapLen / 2 && OrderedFrom(heap[..], w, heapLen, n + 1)
          && Growing(heap[..], heapLen, heapMax, dl[..], elems, elems - 1, pos, k)
        decreases n
      {
        ghost var before := heap[..];
        OneLower(before, w, heapLen, n + 1);
        Pqdownheap(fc, n, w, n);
        SameContents(before, heap[..], heapLen);
        FrontMoves(before, heap[..], heapLen, heapMax, dl[..], elems, elems - 1, pos, k);
        n := n - 1;
      }
      WholeHeap(heap[..], w, heapLen);
      HeapedAgain(fc, dl, elems, elems - 1, pos, k, w);
    }

    /** The loop that joins the two lightest nodes, until one is left, which is listed too. */
    method JoinAll(fc: array<int>, dl: array<int>, elems: int, ghost marks: seq<int>, ghost k: int)
      returns (node: int, ghost pos: seq<int>, ghost total: int)
      requires Arrays(fc, dl) && Ranges(fc) && 2 <= heapLen == k && 2 * elems <= fc.Length && 2 * elems <= dl.Length
      requires Growing(heap[..], heapLen, heapMax, dl[..], elems, elems - 1, marks, k) && elems <= L_CODES
      modifies this`heapLen, this`heapMax, heap, depth, fc, dl
      ensures DepthsFit() && fc[..elems] == old(fc[..elems]) && Unmarked(marks, pos, elems) && elems <= |marks|
      ensures total == TopSum(old(fc[..]), marks, elems) && node - 1 < fc.Length && 0 <= heapMax < HEAP_SIZE - 1
      ensures Whole(fc[..], heap[..], heapMax, dl[..], elems, node - 1, pos, k, total)
    {
      hide *;
      ghost var now := fc[..];
      FrequenciesFit(fc);
      ArraysDiffer(fc, dl);
      pos := marks;
      GrowingSizes(heap[..], heapLen, heapMax, dl[..], elems, elems - 1, pos, k);
      UnmarkedItself(marks, elems);
      Heapify(fc, dl, elems, pos, k);
      total := TopSum(now, pos, elems);
      NothingMerged(now, heap[..], elems, pos, total);
      node := elems;
      while heapLen >= 2
        invariant elems <= node && 1 <= heapLen == k - (node - elems) && node < fc.Length && node < dl.Length
          && node < HEAP_SIZE
        invariant Heaped(fc, dl, elems, node - 1, pos, k) && Unmarked(marks, pos, elems) && fc[..elems] == now[..elems]
        invariant total < WRAP16 ==> Merged(fc[..], heap[..], heapMax, elems, node - 1, pos, total)
        decreases heapLen
      {
        ghost var before, f, f0, h0, max0, n, m := pos, fc[..node], fc[..], heap[..], heapMax, 0, 0;
        HeapedRoom(fc, dl, elems, node - 1, pos, k);
        pos, n, m := JoinTwo(fc, dl, node, elems, pos, k);
        MergedIfSmall(f0, h0, max0, elems, node - 1, before, total, n, m, fc[..], heap[..], pos, heapMax);
        assert fc[..elems] == fc[..node][..elems] == f[..elems];
        UnmarkedNext(marks, before, pos, elems, node);
        node := node + 1;
      }
      HeapedParts(fc, dl, elems, node - 1, pos, k);
      DepthsOf(fc, dl);
      ghost var hp := heap[..];
      GrowingSizes(hp, heapLen, heapMax, dl[..], elems, node - 1, pos, k);
      heapMax := heapMax - 1;
      heap[heapMax] := heap[1];
      assert heap[..] == hp[heapMax := hp[1]];
      WholeFrom(fc[..], hp, heap[..], heapMax, dl[..], elems, node - 1, pos, k, total);
    }

    /**
     build_tree: every symbol that occurs gets a length of at most max and the code that goes with it; at least two
     do, and the code is complete: its lengths fill the code space exactly. Both sums are those of the frequencies
     given, whatever was forced.
     */
    method BuildTree(fc: array<int>, dl: array<int>, elems: int, max: int, d: Desc)
      returns (maxCode: int, opt: int, stat: int, cut: int)
      requires Arrays(fc, dl) && Ranges(fc) && 3 <= elems <= L_CODES && 1 <= max <= MAX_BITS && elems <= Pow2(max)
      requires 2 * elems <= fc.Length && 2 * elems <= dl.Length && Described(d, elems) && NoneAtFirst(d)
      modifies this`heapLen, this`heapMax, heap, depth, blCount, fc, dl
      ensures 0 <= maxCode < elems && blCount[..] == CountsOf(dl[..maxCode + 1])
        && Used(blCount[..], MAX_BITS) == Pow2(MAX_BITS)
      ensures forall y {:trigger dl[y]} :: 0 <= y <= maxCode ==> 0 <= dl[y] <= max
      ensures forall y {:trigger dl[y]} :: 0 <= y < elems && old(fc[y]) != 0 ==> y <= maxCode && 1 <= dl[y]
      ensures CodesUpTo(fc[..], dl[..maxCode + 1], maxCode + 1) && DepthsFit()
      ensures Costs(old(fc[..]), dl[..], d, elems, opt, stat)
      ensures BestLengths(old(fc[..]), dl[..], d, elems, max, cut)
    {
      hide *;
      ghost var marks;
      ghost var freq := fc[..];
      FrequenciesFit(fc);
      NotBelow(freq);
      maxCode, opt, stat, marks := FillHeap(fc, dl, elems, d);
      ghost var k, now := heapLen, fc[..];
      FirstMarks(heap[..], heapLen, heapMax, dl[..], elems, marks, k, now);
      FrequenciesFit(fc);
      ArraysDiffer(fc, dl);
      var node;
      ghost var pos, total;
      node, pos, total := JoinAll(fc, dl, elems, marks, k);
      ghost var S := heapMax;
      ghost var f := fc[..];
      ListEnd(now, f, heap[..], S, dl[..], elems, node - 1, pos, marks, k, max, total, maxCode);
      var o, t;
      o, t, cut := GenBitlen(heap, dl, blCount, heapMax, maxCode, max, fc, d, elems, node - 1, pos);
      opt, stat := opt + o, stat + t;
      WholeCode(dl[..], heap[..], blCount[..], S, elems, node - 1, pos, max, maxCode);
      EachCoded(dl[..], S, elems, pos, max, now, maxCode);
      OnlyTwo(dl[..], heap[..], blCount[..], S, elems, node - 1, pos, max, maxCode, k);
      CostsJoin(freq, now, fc[..], dl[..], d, elems, maxCode, k, opt - o, stat - t, o, t);
      OccurStill(freq, now, elems, k);
      BestFor(freq, now, fc[..], marks, dl[..], heap[..], S, d, elems, node - 1, pos, max, cut, maxCode, k, total);
      GenCodes(fc, dl, blCount, maxCode);
    }
  }

  // ----- the best lengths -------------------------------------------------------------------------------------------

  /**
   If the frequencies add up to less than 2^16, no lengths that suit cost less than these, or some were too long; and
   that takes as much as the Fibonacci number max + 3.
   */
  ghost predicate BestLengths(freq: seq<int>, lens: seq<int>, d: Desc, elems: int, max: nat, cut: int) {
    && 0 <= cut && 0 <= elems <= |freq|
    && (AllFreq(freq, elems) < WRAP16 ==>
         if cut == 0 then Cheapest(freq, lens, d, elems) else AllFreq(freq, elems) >= HuffmanTree.Fib(max + 3))
  }

  lemma NothingMerged(f: seq<int>, heap: seq<int>, elems: int, pos: seq<int>, total: int)
    requires 0 <= elems <= |f| && elems <= |pos| && |heap| == HEAP_SIZE && total == TopSum(f, pos, elems)
    requires forall y {:trigger f[y]} :: 0 <= y < |f| ==> 0 <= f[y] < WRAP16
    ensures total < WRAP16 ==> Merged(f, heap, HEAP_SIZE, elems, elems - 1, pos, total)
  {
    hide TopSum;
  }

  lemma MergedIfSmall(f: seq<int>, heap: seq<int>, heapMax: int, elems: int, N: int, pos: seq<int>, total: int, n: int,
                      m: int, f': seq<int>, heap': seq<int>, pos': seq<int>, heapMax': int)
    requires total < WRAP16 ==> Merged(f, heap, heapMax, elems, N, pos, total)
    requires NextJoin(f, heap, heapMax, N, pos, n, m, f', heap', pos') && heapMax == HEAP_SIZE - 2 * (N - elems + 1)
    requires heapMax' == heapMax - 2
    ensures total < WRAP16 ==> Merged(f', heap', heapMax', elems, N + 1, pos', total)
  {
    hide *;
    if total < WRAP16 { MergedOn(f, heap, heapMax, elems, N, pos, total, n, m, f', heap', pos'); }
  }

  lemma MergedTotal(f: seq<int>, heap: seq<int>, heapMax: int, elems: int, N: int, pos: seq<int>, total: int)
    requires Merged(f, heap, heapMax, elems, N, pos, total) && 0 <= N
    ensures N < |f| && N < |pos| && TopSum(f, pos, N + 1) == total
  {
    hide TopSum, Sorted, FatherAt;
  }

  lemma Marks(f: seq<int>, now: seq<int>, marks: seq<int>, pos: seq<int>, S: int, elems: int)
    requires TreeBuilder.Absent(now, marks, elems) && Unmarked(marks, pos, elems) && 0 <= elems <= |f| && 0 <= S
    requires f[..elems] == now[..elems]
    requires forall y {:trigger pos[y]} :: 0 <= y < elems && pos[y] <= S ==> pos[y] == -2
    ensures elems <= |pos| && elems <= |f|
    ensures forall y {:trigger f[y]} {:trigger pos[y]} :: 0 <= y < elems ==> (pos[y] > S <==> f[y] != 0)
  {
    forall y {:trigger f[y]} {:trigger pos[y]} | 0 <= y < elems ensures pos[y] > S <==> f[y] != 0 {
      assert f[..elems][y] == now[..elems][y];
      assert marks[y] == -2 <==> now[y] == 0;
    }
  }

  lemma WeighedFrom(f: seq<int>, heap: seq<int>, S: int, elems: int, N: int, pos: seq<int>)
    requires AllSorted(f, heap, S, elems, N) && 0 <= elems <= N < |pos| && N < |f|
    requires forall y {:trigger f[y]} {:trigger pos[y]} :: 0 <= y < elems ==> (pos[y] > S <==> f[y] != 0)
    ensures Weighed(f, heap, S, elems, N, pos)
  {
    hide AllSorted;
  }

  lemma SortedAll(f: seq<int>, before: seq<int>, heap: seq<int>, S: int, elems: int, N: int, pos: seq<int>, total: int)
    requires Merged(f, before, S + 1, elems, N, pos, total) && 0 <= S < |before| == |heap| == HEAP_SIZE
    requires HEAP_SIZE - S - 1 == 2 * (N - elems + 1) && 0 <= N && heap == before[S := heap[S]]
    ensures AllSorted(f, heap, S, elems, N)
  {
    hide TopSum;
    forall i {:trigger heap[i]} | S < i < HEAP_SIZE ensures heap[i] == before[i] && 0 <= heap[i] <= N { }
    forall t {:trigger FatherAt(f, heap, elems, t)} | elems <= t <= N ensures FatherAt(f, heap, elems, t) {
      assert FatherAt(f, before, elems, t);
      var i := SonAt(elems, t);
      assert S < i - 1;
      assert heap[i] == before[i] && heap[i - 1] == before[i - 1];
    }
    hide FatherAt;
  }

  /** From the frequencies with those forced to those given. */
  lemma BestFor(freq: seq<int>, now: seq<int>, f: seq<int>, marks: seq<int>, lens: seq<int>, heap: seq<int>, S: int,
                d: Desc, elems: int, N: int, pos: seq<int>, max: nat, cut: int, maxCode: int, k: int, total: int)
    requires Forced(freq, now, elems, k) && TreeBuilder.Absent(now, marks, elems) && 0 <= elems <= |f| && 0 <= cut
    requires f[..elems] == now[..elems] && total == TopSum(now, marks, elems) && 0 <= maxCode < elems <= |lens|
    requires total < WRAP16 ==> Weighed(f, heap, S, elems, N, pos)
    requires Weighed(f, heap, S, elems, N, pos) ==> BestOrHeavy(f, lens, d, elems, N, max, cut)
    requires N - elems + 2 == k && (N == elems ==> cut == 0)
    requires total < WRAP16 ==> N < |f| && 0 <= N && f[N] == total
    requires forall y {:trigger freq[y]} :: 0 <= y < |freq| ==> 0 <= freq[y]
    requires forall y {:trigger lens[y]} {:trigger now[y]} :: 0 <= y < elems && now[y] != 0 ==>
      y <= maxCode && 1 <= lens[y]
    requires k == 2 ==> forall y {:trigger lens[y]} :: 0 <= y <= maxCode && lens[y] != 0 ==> lens[y] == 1
    ensures BestLengths(freq, lens, d, elems, max, cut)
  {
    hide *;
    BestSizes(freq, now, elems, k, marks);
    if AllFreq(freq, elems) < WRAP16 {
      if k == 2 {
        OnesOccur(freq, now, lens, elems, maxCode, k);
        OnesCheapest(freq, lens, d, elems);
      } else {
        NoneForced(freq, now, f, marks, elems, k);
        AllAreTops(freq, now, marks, elems);
        BestIs(f, lens, d, elems, N, max, cut);
        if cut == 0 { CheapestSame(f, freq, lens, d, elems); }
      }
    }
    BestFrom2(freq, lens, d, elems, max, cut);
  }

  lemma BestSizes(freq: seq<int>, now: seq<int>, elems: int, k: int, marks: seq<int>)
    requires Forced(freq, now, elems, k) && TreeBuilder.Absent(now, marks, elems)
    ensures 0 <= elems <= |freq| == |now| && elems <= |marks|
  {
  }

  lemma OnesOccur(freq: seq<int>, now: seq<int>, lens: seq<int>, elems: int, maxCode: int, k: int)
    requires Forced(freq, now, elems, k) && elems <= |lens| && maxCode < elems && k == 2
    requires forall y {:trigger lens[y]} {:trigger now[y]} :: 0 <= y < elems && now[y] != 0 ==>
      y <= maxCode && 1 <= lens[y]
    requires forall y {:trigger lens[y]} :: 0 <= y <= maxCode && lens[y] != 0 ==> lens[y] == 1
    ensures elems <= |freq| && forall y {:trigger lens[y]} :: 0 <= y < elems && freq[y] != 0 ==> lens[y] == 1
  {
    forall y {:trigger lens[y]} | 0 <= y < elems && freq[y] != 0 ensures lens[y] == 1 {
      assert now[y] != 0;
    }
  }

  lemma NoneForced(freq: seq<int>, now: seq<int>, f: seq<int>, marks: seq<int>, elems: int, k: int)
    requires Forced(freq, now, elems, k) && k != 2 && TreeBuilder.Absent(now, marks, elems) && elems <= |f|
    requires f[..elems] == now[..elems]
    ensures elems <= |marks| && elems <= |now| && elems <= |freq| && 0 <= elems
    ensures forall y {:trigger now[y]} :: 0 <= y < elems ==> now[y] == freq[y] && (marks[y] == -1 || now[y] == 0)
    ensures forall y {:trigger freq[y]} :: 0 <= y < elems ==> freq[y] == f[y]
  {
    forall y {:trigger now[y]} {:trigger freq[y]} | 0 <= y < elems
      ensures now[y] == freq[y] == f[y] && (marks[y] == -1 || now[y] == 0)
    {
      assert f[..elems][y] == now[..elems][y];
      assert marks[y] == -2 || marks[y] == -1;
    }
  }

  lemma BestIs(f: seq<int>, lens: seq<int>, d: Desc, elems: int, N: int, max: nat, overflow: int)
    requires BestOrHeavy(f, lens, d, elems, N, max, overflow)
    ensures 0 <= elems && 0 <= N < |f|
    ensures if overflow == 0 then Cheapest(f, lens, d, elems) else f[N] >= HuffmanTree.Fib(max + 3)
  {
  }

  lemma BestFrom2(freq: seq<int>, lens: seq<int>, d: Desc, elems: int, max: nat, cut: int)
    requires 0 <= cut && 0 <= elems <= |freq|
    requires AllFreq(freq, elems) < WRAP16 ==>
      if cut == 0 then Cheapest(freq, lens, d, elems) else AllFreq(freq, elems) >= HuffmanTree.Fib(max + 3)
    ensures BestLengths(freq, lens, d, elems, max, cut)
  {
  }

  // ----- the costs --------------------------------------------------------------------------------------------------

  /** The symbols that may be forced have no extra bits: 0 and 1, and 2 if only 1 occurs. */
  ghost predicate NoneAtFirst(d: Desc) {
    forall y {:trigger XBits(d, y)} :: 0 <= y <= 2 ==> XBits(d, y) == 0
  }

  /** What the lengths cost, and what the static ones would. */
  ghost predicate Costs(freq: seq<int>, lens: seq<int>, d: Desc, elems: int, opt: int, stat: int) {
    && 0 <= elems <= |freq| && elems <= |lens| && Described(d, elems) && opt == BlockBits(freq, lens, d, elems)
    && stat == if d.stree == [] then 0 else BlockBits(freq, d.stree, d, elems)
  }

  /** Symbols that are forced do not occur, and there are two in all then. */
  ghost predicate Forced(freq: seq<int>, now: seq<int>, elems: int, k: int) {
    && 0 <= elems <= |freq| == |now|
    && forall y {:trigger now[y]} :: 0 <= y < elems && now[y] != freq[y] ==>
         freq[y] == 0 && now[y] == 1 && y <= 2 && k == 2
  }

  ghost function Once(n: nat): (w: seq<int>)
    ensures |w| == n && forall y {:trigger w[y]} :: 0 <= y < n ==> w[y] == 1
  {
    seq(n, y => 1)
  }

  /** A symbol forced is taken to cost one bit, or its static length. */
  ghost predicate ForcedCosts(freq: seq<int>, now: seq<int>, d: Desc, elems: int, opt: int, stat: int) {
    && 0 <= elems <= |freq| == |now| && Described(d, elems)
    && opt == Weighted(freq, Once(elems), elems) - Weighted(now, Once(elems), elems)
    && stat == if d.stree == [] then 0 else Weighted(freq, d.stree, elems) - Weighted(now, d.stree, elems)
  }

  lemma NothingForced(freq: seq<int>, d: Desc, elems: int)
    requires 0 <= elems <= |freq| && Described(d, elems)
    ensures ForcedCosts(freq, freq, d, elems, 0, 0)
  {
    hide Weighted;
  }

  lemma OneForced(freq: seq<int>, now: seq<int>, d: Desc, elems: int, opt: int, stat: int, y: int)
    requires ForcedCosts(freq, now, d, elems, opt, stat) && 0 <= y < elems && now[y] == 0
    ensures d.stree != [] ==> y < |d.stree|
    ensures ForcedCosts(freq, now[y := 1], d, elems, opt - 1, if d.stree != [] then stat - d.stree[y] else stat)
  {
    WeightedMore(now, Once(elems), y, elems);
    if d.stree != [] { WeightedMore(now, d.stree, y, elems); }
    hide Weighted;
  }

  lemma ListedStill(now: seq<int>, fc: seq<int>, pos: seq<int>, S: int, elems: int)
    requires AllListed(now, pos, S, elems) && 0 <= elems <= |fc| && fc[..elems] == now[..elems]
    ensures AllListed(fc, pos, S, elems)
  {
    forall y {:trigger fc[y]} | 0 <= y < elems && fc[y] != 0 ensures S < pos[y] {
      assert fc[..elems][y] == now[..elems][y];
      assert now[y] != 0;
    }
  }

  lemma OccurStill(freq: seq<int>, now: seq<int>, elems: int, k: int)
    requires Forced(freq, now, elems, k)
    ensures forall y {:trigger freq[y]} {:trigger now[y]} :: 0 <= y < elems && freq[y] != 0 ==> now[y] != 0
  {
  }

  /** Two lengths that fill the code space are ones. */
  lemma OnlyTwo(dl: seq<int>, heap: seq<int>, cnt: seq<int>, S: int, elems: int, N: int, pos: seq<int>, max: nat,
                maxCode: int, k: int)
    requires CompleteLengths(dl, heap, cnt, S, elems, N, pos, max) && UpToMax(pos, S, elems, maxCode)
    requires 1 <= max <= MAX_BITS && Total(cnt, max) == k
    requires maxCode + 1 <= |dl| && cnt == CountsOf(dl[..maxCode + 1]) && Lengths(dl[..maxCode + 1])
    ensures k == 2 ==> forall y {:trigger dl[y]} :: 0 <= y <= maxCode && dl[y] != 0 ==> dl[y] == 1
  {
    hide *;
    CompleteIs(dl, heap, cnt, S, elems, N, pos, max, maxCode);
    if k == 2 {
      NotNegative(dl[..maxCode + 1]);
      OnlyOnes(cnt, max);
      ghost var lens := dl[..maxCode + 1];
      forall y {:trigger dl[y]} | 0 <= y <= maxCode && dl[y] != 0 ensures dl[y] == 1 {
        assert lens[y] == dl[y];
        CountedOnce(lens, y);
      }
    }
  }

  lemma NotNegative(lens: seq<int>)
    requires Lengths(lens)
    ensures forall l {:trigger CountsOf(lens)[l]} :: 0 <= l <= MAX_BITS ==> CountsOf(lens)[l] >= 0
  {
    hide Count;
  }

  lemma CountedOnce(lens: seq<int>, y: int)
    requires Lengths(lens) && 0 <= y < |lens| && lens[y] != 0
    ensures 1 <= lens[y] <= MAX_BITS && CountsOf(lens)[lens[y]] > 0
  {
    CountBefore(lens, y);
    hide Count;
  }

  /** Each length past 1 leaves part of the code space free, compared with a 1 in its place. */
  lemma {:induction false} UsedAtMost(cnt: seq<int>, l: nat)
    requires 1 <= l < |cnt| && forall b {:trigger cnt[b]} :: 0 <= b <= l ==> cnt[b] >= 0
    ensures Total(cnt, l) >= cnt[1] && Used(cnt, l) + Total(cnt, l) - cnt[1] <= Total(cnt, l) * Pow2(l - 1)
    decreases l
  {
    if l == 1 {
      assert Total(cnt, 1) == Total(cnt, 0) + cnt[1] && Used(cnt, 1) == 2 * Used(cnt, 0) + cnt[1];
    } else {
      UsedAtMost(cnt, l - 1);
      TwiceAtMost(Total(cnt, l - 1), cnt[l], Pow2(l - 2));
    }
  }

  lemma TwiceAtMost(t: int, c: int, p: nat)
    requires c >= 0 && p >= 1
    ensures t * (2 * p) == 2 * (t * p) && (t + c) * (2 * p) >= t * (2 * p) + 2 * c
  {
    assert (t + c) * (2 * p) == t * (2 * p) + c * (2 * p);
    assert c * (2 * p) >= 2 * c;
  }

  lemma OnlyOnes(cnt: seq<int>, max: nat)
    requires 1 <= max < |cnt| && forall b {:trigger cnt[b]} :: 0 <= b <= max ==> cnt[b] >= 0
    requires Used(cnt, max) == Pow2(max) && Total(cnt, max) == 2
    ensures forall b {:trigger cnt[b]} :: 1 < b <= max ==> cnt[b] == 0
  {
    UsedAtMost(cnt, max);
    forall b {:trigger cnt[b]} | 1 < b <= max ensures cnt[b] == 0 { TotalHas(cnt, b, max); }
  }

  lemma {:induction false} TotalHas(cnt: seq<int>, b: int, l: nat)
    requires 1 < b <= l < |cnt| && forall x {:trigger cnt[x]} :: 0 <= x <= l ==> cnt[x] >= 0
    ensures Total(cnt, l) >= cnt[1] + cnt[b]
    decreases l
  {
    if b < l { TotalHas(cnt, b, l - 1); } else { TotalFirst(cnt, l - 1); }
  }

  lemma {:induction false} TotalFirst(cnt: seq<int>, l: nat)
    requires 1 <= l < |cnt| && forall x {:trigger cnt[x]} :: 0 <= x <= l ==> cnt[x] >= 0
    ensures Total(cnt, l) >= cnt[1]
    decreases l
  {
    if l > 1 { TotalFirst(cnt, l - 1); } else { assert Total(cnt, 1) == Total(cnt, 0) + cnt[1]; }
  }

  /** What was taken off for the symbols forced is what they were charged. */
  lemma CostsJoin(freq: seq<int>, now: seq<int>, fc: seq<int>, lens: seq<int>, d: Desc, elems: int, maxCode: int,
    k: int,
                  opt: int, stat: int, o: int, t: int)
    requires Forced(freq, now, elems, k) && ForcedCosts(freq, now, d, elems, opt, stat) && NoneAtFirst(d)
    requires 0 <= maxCode < elems <= |lens| && elems <= |fc| && fc[..elems] == now[..elems]
    requires o == BlockBits(fc, lens, d, elems) && t == if d.stree == [] then 0 else BlockBits(fc, d.stree, d, elems)
    requires forall y {:trigger lens[y]} {:trigger now[y]} :: 0 <= y < elems && now[y] != 0 ==>
      y <= maxCode && 1 <= lens[y]
    requires k == 2 ==> forall y {:trigger lens[y]} :: 0 <= y <= maxCode && lens[y] != 0 ==> lens[y] == 1
    ensures Costs(freq, lens, d, elems, opt + o, stat + t)
  {
    hide BlockBits, Weighted, XBits;
    forall y {:trigger now[y]} | 0 <= y < elems ensures now[y] == fc[y] { assert fc[..elems][y] == now[..elems][y]; }
    SameBits(fc, now, lens, d, elems);
    if d.stree != [] { SameBits(fc, now, d.stree, d, elems); }
    forall y {:trigger now[y]} | 0 <= y < elems && now[y] != freq[y] ensures lens[y] == 1 && XBits(d, y) == 0 {
      assert lens[y] != 0;
    }
    CostsAsWeighted(freq, now, lens, d, Once(elems), elems);
    if d.stree != [] { CostsAsWeighted(freq, now, d.stree, d, d.stree, elems); }
  }

  lemma NextJoinIs(f: seq<int>, heap: seq<int>, heapMax: int, N: int, pos: seq<int>, n: int, m: int, f': seq<int>,
                   heap': seq<int>, pos': seq<int>)
    requires 2 <= heapMax <= HEAP_SIZE && |f'| == |f| && 0 <= N + 1 < |f| && N + 1 < |pos|
      && |heap'| == |heap| == HEAP_SIZE
    requires TwoLightest(f, pos, N, n, m) && 0 <= n < |f| && 0 <= m < |f| && n < |pos| && m < |pos|
    requires f'[..N + 1] == f[..N + 1] && f'[N + 1] == (f[n] + f[m]) % WRAP16
    requires heap'[heapMax - 1] == n && heap'[heapMax - 2] == m
    requires forall i {:trigger heap'[i]} :: heapMax <= i < HEAP_SIZE ==> heap'[i] == heap[i]
    requires pos' == pos[n := heapMax - 1][m := heapMax - 2][N + 1 := -1]
    ensures NextJoin(f, heap, heapMax, N, pos, n, m, f', heap', pos')
  {
    hide TwoLightest;
    forall y {:trigger f'[y]} | 0 <= y <= N ensures f'[y] == f[y] {
      assert f'[..N + 1][y] == f[..N + 1][y];
    }
  }

  /** The same symbols are marked as absent. */
  ghost predicate Unmarked(marks: seq<int>, pos: seq<int>, elems: int) {
    elems <= |marks| == |pos| && forall y {:trigger pos[y]} :: 0 <= y < elems ==> (pos[y] == -2 <==> marks[y] == -2)
  }

  lemma UnmarkedNext(marks: seq<int>, pos: seq<int>, pos': seq<int>, elems: int, node: int)
    requires Unmarked(marks, pos, elems) && |pos'| == |pos| && elems <= node
    requires forall y {:trigger pos'[y]} :: 0 <= y < |pos| && y < node ==> (pos'[y] == -2 <==> pos[y] == -2)
    ensures Unmarked(marks, pos', elems)
  {
  }

  lemma NotBelow(freq: seq<int>)
    requires forall y {:trigger freq[y]} :: 0 <= y < |freq| ==> 0 <= freq[y] < WRAP16
    ensures forall y {:trigger freq[y]} :: 0 <= y < |freq| ==> 0 <= freq[y]
  {
  }

  lemma UnmarkedItself(marks: seq<int>, elems: int)
    requires elems <= |marks|
    ensures Unmarked(marks, marks, elems)
  {
  }

  /** All nodes are joined and listed, the root in front. */
  ghost predicate Whole(f: seq<int>, heap: seq<int>, S: int, dl: seq<int>, elems: int, N: int, pos: seq<int>, k: int,
                        total: int) {
    && |heap| == HEAP_SIZE && Listed(heap, S, elems, N, pos) && Fathered(dl, heap, S, N) && N < |dl| && N < |f|
    && N - elems + 2 == k && 0 <= N < |pos| && pos[N] == -1
    && (forall t {:trigger pos[t]} :: 0 <= t < N ==> pos[t] != -1)
    && (forall y {:trigger pos[y]} :: 0 <= y < elems ==> pos[y] > S || (pos[y] == -2 && dl[y] == 0))
    && (total < WRAP16 ==> AllSorted(f, heap, S, elems, N) && f[N] == total)
  }

  lemma WholeFrom(f: seq<int>, before: seq<int>, heap: seq<int>, S: int, dl: seq<int>, elems: int, N: int,
    pos: seq<int>,
                  k: int, total: int)
    requires Growing(before, 1, S + 1, dl, elems, N, pos, k) && k >= 2 && heap == before[S := before[1]] && N < |f|
    requires 0 <= S < |before| == HEAP_SIZE && (total < WRAP16 ==> Merged(f, before, S + 1, elems, N, pos, total))
    ensures Whole(f, heap, S, dl, elems, N, pos, k, total)
  {
    hide Growing, Listed, Contents, Tops, Back, DadAt, DadUp, AllSorted, Merged;
    Grown(before, S + 1, dl, elems, N, pos, k);
    GrowingSizes(before, 1, S + 1, dl, elems, N, pos, k);
    GrowingParts(before, 1, S + 1, dl, elems, N, pos, k);
    BackSizes(before, S + 1, dl, elems, N, pos);
    BackMeans(before, S + 1, dl, elems, N, pos);
    forall i {:trigger heap[i]} | 0 <= S < i < |heap| ensures 0 <= heap[i] < |dl| && dl[heap[i]] == DadAt(N, S, i) {
      assert heap[i] == before[i];
    }
    if total < WRAP16 {
      OnlyTop(f, pos, N, N + 1);
      MergedTotal(f, before, S + 1, elems, N, pos, total);
      SortedAll(f, before, heap, S, elems, N, pos, total);
    }
  }

  lemma BackSizes(heap: seq<int>, heapMax: int, dl: seq<int>, elems: int, N: int, pos: seq<int>)
    requires Back(heap, heapMax, dl, elems, N, pos) && N >= elems
    ensures N < |pos| && pos[N] == -1
    ensures forall y {:trigger pos[y]} :: 0 <= y < elems ==> pos[y] == -2 || pos[y] >= -1
  {
  }

  /** What the next steps need of it. */
  lemma ListEnd(now: seq<int>, f: seq<int>, heap: seq<int>, S: int, dl: seq<int>, elems: int, N: int, pos: seq<int>,
                marks: seq<int>, k: int, max: nat, total: int, maxCode: int)
    requires Whole(f, heap, S, dl, elems, N, pos, k, total) && elems <= Pow2(max) && k <= elems
    requires TreeBuilder.Absent(now, marks, elems) && Unmarked(marks, pos, elems) && 0 <= elems <= |f|
    requires f[..elems] == now[..elems] && 0 <= maxCode < elems <= |now|
    requires forall y {:trigger marks[y]} :: maxCode < y < elems && y < |marks| && 0 <= y ==> marks[y] == -2
    ensures 0 <= S < |heap| == HEAP_SIZE && Listed(heap, S, elems, N, pos) && N < |dl| && N - elems + 2 <= Pow2(max)
    ensures Fathered(dl, heap, S, N) && UpToMax(pos, S, elems, maxCode) && N - elems + 2 == k
    ensures AllListed(now, pos, S, elems) && AllListed(f, pos, S, elems)
    ensures forall y {:trigger dl[y]} :: 0 <= y < elems && pos[y] <= S ==> dl[y] == 0
    ensures 0 <= N < |f| && (total < WRAP16 ==> Weighed(f, heap, S, elems, N, pos) && f[N] == total)
  {
    hide Listed, Pow2, DadAt, AllSorted;
    ListedSizes(heap, S, elems, N, pos);
    forall y {:trigger now[y]} | 0 <= y < elems && now[y] != 0 ensures S < pos[y] {
      assert marks[y] == -1 && pos[y] != -2;
    }
    forall y {:trigger pos[y]} | maxCode < y < elems ensures pos[y] <= S { assert marks[y] == -2; }
    ListedStill(now, f, pos, S, elems);
    if total < WRAP16 {
      Marks(f, now, marks, pos, S, elems);
      WeighedFrom(f, heap, S, elems, N, pos);
    }
  }

  lemma FirstMarks(heap: seq<int>, heapLen: int, heapMax: int, dl: seq<int>, elems: int, pos: seq<int>, k: int,
                   freq: seq<int>)
    requires Growing(heap, heapLen, heapMax, dl, elems, elems - 1, pos, k) && TreeBuilder.Marked(freq, pos, dl, elems)
    ensures Unmarked(pos, pos, elems) && k == heapLen <= elems && 2 * elems < HEAP_SIZE && elems <= |pos|
      && elems <= |freq|
    ensures forall y {:trigger freq[y]} :: 0 <= y < elems && freq[y] != 0 ==> pos[y] == -1
  {
  }

  /** Each symbol that occurs is listed. */
  ghost predicate AllListed(freq: seq<int>, pos: seq<int>, S: int, elems: int) {
    elems <= |freq| && elems <= |pos| && forall y {:trigger freq[y]} :: 0 <= y < elems && freq[y] != 0 ==> S < pos[y]
  }

  lemma BackMeans(heap: seq<int>, heapMax: int, dl: seq<int>, elems: int, N: int, pos: seq<int>)
    requires Back(heap, heapMax, dl, elems, N, pos) && forall t {:trigger pos[t]} :: 0 <= t < N ==> pos[t] != -1
    requires elems <= N && forall y {:trigger pos[y]} :: 0 <= y < elems ==> pos[y] == -2 || pos[y] >= -1
    ensures forall y {:trigger pos[y]} :: 0 <= y < elems ==>
      if pos[y] >= heapMax then true else pos[y] == -2 && dl[y] == 0
  {
  }

  lemma WholeCode(dl: seq<int>, heap: seq<int>, cnt: seq<int>, S: int, elems: int, N: int, pos: seq<int>, max: nat,
                  maxCode: int)
    requires CompleteLengths(dl, heap, cnt, S, elems, N, pos, max) && UpToMax(pos, S, elems, maxCode)
    ensures maxCode + 1 <= |dl| && cnt == CountsOf(dl[..maxCode + 1]) && Used(cnt, MAX_BITS) == Pow2(MAX_BITS)
      && Lengths(dl[..maxCode + 1])
    ensures Coded(dl, pos, S, elems, max)
  {
    hide *;
    CompleteIs(dl, heap, cnt, S, elems, N, pos, max, maxCode);
    CountsBySymbol(dl, heap, S, elems, N, pos, max, maxCode + 1);
    FullToTop(cnt, max);
    CodedLengths(dl, pos, S, elems, max, maxCode + 1);
  }

  lemma CompleteIs(dl: seq<int>, heap: seq<int>, cnt: seq<int>, S: int, elems: int, N: int, pos: seq<int>, max: nat,
                   maxCode: int)
    requires CompleteLengths(dl, heap, cnt, S, elems, N, pos, max) && UpToMax(pos, S, elems, maxCode)
    ensures Listed(heap, S, elems, N, pos) && N < |dl| && Coded(dl, pos, S, elems, max) && max <= MAX_BITS
      && |cnt| == MAX_BITS + 1
    ensures LeafCounts(dl, heap, S, elems, max, HEAP_SIZE) == cnt && Used(cnt, max) == Pow2(max) && -1 <= S
      && HEAP_SIZE <= |heap|
    ensures 0 <= maxCode < elems <= |dl| && elems <= |pos| && forall y {:trigger pos[y]} :: maxCode + 1 <= y < elems ==>
      pos[y] <= S
    ensures forall l {:trigger cnt[l]} :: max < l <= MAX_BITS ==> cnt[l] == 0
  {
    hide NodeSum, Used, Pow2;
  }

  lemma FullToTop(cnt: seq<int>, max: nat)
    requires max <= MAX_BITS && |cnt| == MAX_BITS + 1 && Used(cnt, max) == Pow2(max) && forall l {:trigger cnt[l]} ::
      max < l <= MAX_BITS ==> cnt[l] == 0
    ensures Used(cnt, MAX_BITS) == Pow2(MAX_BITS)
  {
    hide Used, Pow2;
    UsedToTop(cnt, max, MAX_BITS);
    Pow2Sum(max, MAX_BITS - max);
  }

  lemma CodedLengths(dl: seq<int>, pos: seq<int>, S: int, elems: int, max: nat, n: int)
    requires Coded(dl, pos, S, elems, max) && 0 <= n <= elems && max <= MAX_BITS
    ensures n <= |dl| && Lengths(dl[..n])
  {
    forall s {:trigger dl[..n][s]} | 0 <= s < n ensures 0 <= dl[..n][s] <= MAX_BITS { assert dl[..n][s] == dl[s]; }
  }

  lemma EachCoded(dl: seq<int>, S: int, elems: int, pos: seq<int>, max: nat, freq: seq<int>, maxCode: int)
    requires Coded(dl, pos, S, elems, max) && UpToMax(pos, S, elems, maxCode) && AllListed(freq, pos, S, elems)
    ensures elems <= |dl| && elems <= |freq| && maxCode < elems && forall y {:trigger dl[y]} :: 0 <= y <= maxCode ==>
      0 <= dl[y] <= max
    ensures forall y {:trigger dl[y]} {:trigger freq[y]} :: 0 <= y < elems && freq[y] != 0 ==>
      y <= maxCode && 1 <= dl[y]
  {
    forall y {:trigger dl[y]} {:trigger freq[y]} | 0 <= y < elems && freq[y] != 0 ensures y <= maxCode && 1 <= dl[y] {
      assert S < pos[y];
    }
  }

  lemma AllInHeap(heap: seq<int>, heapLen: int, heapMax: int, dl: seq<int>, elems: int, N: int, pos: seq<int>, k: int)
    requires Growing(heap, heapLen, heapMax, dl, elems, N, pos, k)
    ensures forall x {:trigger Contents(heap, heapLen)[x]} :: x in Contents(heap, heapLen) ==>
      0 <= x <= N && N < |pos| && pos[x] == -1
  {
    GrowingSizes(heap, heapLen, heapMax, dl, elems, N, pos, k);
    hide Contents, Growing;
    forall x {:trigger Contents(heap, heapLen)[x]} | x in Contents(heap, heapLen)
      ensures 0 <= x <= N && N < |pos| && pos[x] == -1
    {
      InHeap(heap, heapLen, heapMax, dl, elems, N, pos, k, x);
    }
  }

  lemma PlacedAlso(pos: seq<int>, n: int, m: int, node: int, max: int)
    requires 0 <= n < node < |pos| && 0 <= m < node && pos[n] == pos[m] == -1 && max >= 2
    ensures forall y {:trigger pos[n := max - 1][m := max - 2][node := -1][y]} :: 0 <= y < node ==>
      (pos[n := max - 1][m := max - 2][node := -1][y] == -2 <==> pos[y] == -2)
  {
  }

  lemma WriteBehind(heap: seq<int>, w: seq<int>, n: int, i: int, v: int)
    requires Ordered(heap, w, n) && 0 <= n < i < |heap|
    ensures Ordered(heap[i := v], w, n) && Contents(heap[i := v], n) == Contents(heap, n)
  {
    assert heap[i := v][1..n + 1] == heap[1..n + 1];
  }

  lemma OrderedMore(heap: seq<int>, w: seq<int>, w': seq<int>, n: int)
    requires Ordered(heap, w, n) && |w'| == |w| + 1 && (forall x {:trigger w'[x]} :: 0 <= x < |w| ==> w'[x] == w[x])
      && w'[|w|] >= 0
    ensures Ordered(heap, w', n)
  {
  }

  lemma SinkOn(start: seq<int>, heap: seq<int>, h: seq<int>, w: seq<int>, n: int, lo: int, k: int, j: int, v: int)
    returns (next: seq<int>)
    requires OrderedButAt(h, w, n, lo, k) && Hole(heap, h, k, v) && Shuffled(start, h, 1, n + 1) && Fits(h, w, n)
      && 1 <= k
    requires 2 * k <= j <= 2 * k + 1 && j <= n < |h| && 0 <= h[j] < |w| && 0 <= h[2 * k] < |w| && w[h[j]] <= w[h[2 * k]]
      && 0 <= v < |w| && w[h[j]] <= w[v]
    requires 2 * k + 1 <= n ==> 0 <= h[2 * k + 1] < |w| && w[h[j]] <= w[h[2 * k + 1]]
    ensures j < |heap| && k < |heap| && OrderedButAt(next, w, n, lo, j) && Hole(heap[k := heap[j]], next, j, v)
      && Shuffled(start, next, 1, n + 1) && Fits(next, w, n)
  {
    hide *;
    HoleFilled(heap, h, k, v);
    next := Sinks(h, w, n, lo, k, j);
    ShuffledTransitive(start, h, next, 1, n + 1);
    HoleMoves(heap, h, next, k, j, v);
    ButAtFits(next, w, n, lo, j);
  }

  lemma FitsCount(heap: seq<int>, weight: seq<int>, n: int, i: int)
    requires Fits(heap, weight, n) && 1 <= i <= n
    ensures n < |heap| && 0 <= heap[i] < |weight|
  {
  }
}
