/**
 bzip2's length-limited Huffman code lengths (BZ2_hbMakeCodeLengths, dep/bzip2/huffman.c:63-148).
 */
module HuffmanLengths {
  import opened HuffmanHeap
  import opened HuffmanTree
  import opened CanonicalCode
  import opened Powers
  import O = HuffmanOptimal

  const TOTAL_LIMIT := 0x80_0000

  /** The frequency of symbol i, an absent symbol counting as one, after the given number of scalings. */
  function Scaled(freq: seq<int>, i: int, rounds: nat): (r: int)
    requires 0 <= i < |freq|
    requires freq[i] >= 0
    ensures r >= 1
  {
    if rounds == 0 then (if freq[i] == 0 then 1 else freq[i]) else 1 + Scaled(freq, i, rounds - 1) / 2
  }

  ghost predicate Counts(freq: seq<int>, n: int) {
    && 1 <= n <= |freq| && n <= MAX_ALPHA_SIZE
    && forall i {:trigger freq[i]} :: 0 <= i < n ==> freq[i] >= 0
  }

  /** The total of the scaled frequencies of symbols 0..n-1. */
  ghost function Total(freq: seq<int>, n: int, rounds: nat): int
    requires 0 <= n <= |freq| && forall i {:trigger freq[i]} :: 0 <= i < n ==> freq[i] >= 0
    decreases n
  {
    if n == 0 then 0 else Total(freq, n - 1, rounds) + Scaled(freq, n - 1, rounds)
  }

  /** weight[1..n] holds the scaled frequencies, all of height 0. */
  ghost predicate Leaves(weight: seq<int>, freq: seq<int>, n: int, rounds: nat) {
    && Counts(freq, n) && |weight| == 2 * MAX_ALPHA_SIZE
    && forall i {:trigger weight[i]} :: 1 <= i <= n ==> weight[i] == 256 * Scaled(freq, i - 1, rounds)
  }

  lemma {:induction false} TotalIsSum(weight: seq<int>, freq: seq<int>, n: int, rounds: nat, x: int)
    requires Leaves(weight, freq, n, rounds) && 0 <= x <= n
    ensures Total(freq, x, rounds) == Sum(Frequencies(weight), x)
    decreases x
  {
    hide Scaled;
    if x > 0 {
      TotalIsSum(weight, freq, n, rounds, x - 1);
      assert weight[x] == 256 * Scaled(freq, x - 1, rounds);
    }
  }

  // ----- growing the tree -------------------------------------------------------------------------------------

  /** Everything known of the forest of N nodes; its roots are what the heap holds. */
  ghost predicate Growing(n: int, N: int, weight: seq<int>, parent: seq<int>, left: seq<int>, right: seq<int>,
                          total: int) {
    && Forest(n, N, parent, left, right) && Weighed(n, N, weight, left, right) && Sized(N, weight, total)
    && Extracted(N, weight, parent) && InOrder(N, weight, parent) && parent[N] < 0
    && total == Sum(Frequencies(weight), n) < TOTAL_LIMIT
    && |weight| == 2 * MAX_ALPHA_SIZE && weight[0] == 0
  }

  ghost predicate HeapHolds(heap: seq<int>, nHeap: int, weight: seq<int>, parent: seq<int>, N: int) {
    && 0 <= nHeap < |heap| && 0 <= N < |parent| && heap[0] == 0
    && Ordered(heap, weight, nHeap)
    && Contents(heap, nHeap) == multiset(Roots(parent, N))
  }

  /** a and b are two roots, the lightest and the lightest but for a. */
  ghost predicate Chosen(N: int, weight: seq<int>, parent: seq<int>, a: int, b: int) {
    && N < |weight| == |parent|
    && 1 <= a <= N && 1 <= b <= N && a != b && parent[a] < 0 && parent[b] < 0
    && forall x {:trigger weight[x]} :: 1 <= x <= N && parent[x] < 0 ==>
         weight[a] <= weight[x] && (x != a ==> weight[b] <= weight[x])
  }

  lemma TwoChosen(N: int, weight: seq<int>, parent: seq<int>, held: multiset<int>, a: int, b: int)
    requires 0 <= N < |weight| == |parent| && held == multiset(Roots(parent, N))
    requires Least(weight, held, a) && Least(weight, held - multiset{a}, b)
    ensures Chosen(N, weight, parent, a, b) && 1 <= a <= N && 1 <= b <= N
  {
    assert a in Roots(parent, N) && held[a] == 1;
    assert b in held - multiset{a};
    assert b in Roots(parent, N);
    forall x {:trigger weight[x]} | 1 <= x <= N && parent[x] < 0
      ensures weight[a] <= weight[x] && (x != a ==> weight[b] <= weight[x])
    {
      assert x in Roots(parent, N);
      assert x in held;
      if x != a { assert x in held - multiset{a}; }
    }
  }

  lemma {:induction false} SumFrame(weight: seq<int>, k: int, v: int, x: int)
    requires 0 <= x < k < |weight|
    ensures Sum(Frequencies(weight[k := v]), x) == Sum(Frequencies(weight), x)
    decreases x
  {
    if x > 0 { SumFrame(weight, k, v, x - 1); }
  }

  lemma ChosenLight(n: int, N: int, weight: seq<int>, parent: seq<int>, left: seq<int>, right: seq<int>, total: int,
                    a: int, b: int)
    requires Growing(n, N, weight, parent, left, right, total) && Chosen(N, weight, parent, a, b)
    ensures 0 <= weight[a] && 0 <= weight[b] && D(weight[a]) < 255 && D(weight[b]) < 255
  {
    HeightBounded(N, weight, total, a);
    HeightBounded(N, weight, total, b);
  }

  lemma JoinGrows(n: int, N: int, weight: seq<int>, parent: seq<int>, left: seq<int>, right: seq<int>, total: int,
                  a: int, b: int)
      returns (left': seq<int>, right': seq<int>)
    requires Growing(n, N, weight, parent, left, right, total) && Chosen(N, weight, parent, a, b) && N + 1 < |weight|
    ensures 0 <= weight[a] && 0 <= weight[b] && D(weight[a]) < 255 && D(weight[b]) < 255
    ensures Growing(n, N + 1, weight[N + 1 := AddWeights(weight[a], weight[b])],
      parent[a := N + 1][b := N + 1][N + 1 := -1],
                    left', right', total)
  {
    ChosenLight(n, N, weight, parent, left, right, total, a, b);
    left', right' := left[N + 1 := a], right[N + 1 := b];
    var weight', parent' := weight[N + 1 := AddWeights(weight[a],
        weight[b])], parent[a := N + 1][b := N + 1][N + 1 := -1];
    JoinForest(n, N, parent, left, right, a, b);
    JoinWeighed(n, N, weight, left, right, a, b);
    JoinExtracted(N, weight, parent, a, b) by { forall x {:trigger parent[x]} | 1 <= x <= N ensures parent[x] <= N {} }
    SumFrame(weight, N + 1, AddWeights(weight[a], weight[b]), n);
    hide Forest, Weighed, Sized, Extracted, InOrder, Chosen, Sum, Frequencies, AddWeights;
    JoinSized(n, N, weight, parent, left, right, total, a, b, weight', parent', left', right');
  }

  lemma OrderedFrame(heap: seq<int>, nHeap: int, weight: seq<int>, k: int, v: int)
    requires Ordered(heap, weight, nHeap) && 0 <= k < |weight| && 0 <= v && k !in Contents(heap, nHeap)
    ensures Ordered(heap, weight[k := v], nHeap)
  {
    forall i {:trigger heap[i]} | 1 <= i <= nHeap ensures heap[i] != k {
      assert heap[i] == heap[1..nHeap + 1][i - 1];
    }
  }

  lemma HeapFacts(heap: seq<int>, nHeap: int, weight: seq<int>, parent: seq<int>, N: int)
    requires HeapHolds(heap, nHeap, weight, parent, N)
    ensures 0 <= nHeap < |heap| && 0 <= N < |parent| && heap[0] == 0
    ensures Ordered(heap, weight, nHeap) && Contents(heap, nHeap) == multiset(Roots(parent, N))
  {
  }

  /** After two picks, a node number past N is not in the heap. */
  lemma NewIsAbsent(parent: seq<int>, N: int, held: multiset<int>, a: int, b: int)
    requires 0 <= N < |parent| && held == multiset(Roots(parent, N)) - multiset{a} - multiset{b}
    ensures N + 1 !in held
  {
  }

  lemma HeapAfterJoin(heap: seq<int>, nHeap: int, n: int, N: int, weight: seq<int>, parent: seq<int>, left: seq<int>,
                      right: seq<int>,
                      total: int, a: int, b: int, weight': seq<int>, parent': seq<int>)
    requires Growing(n, N, weight, parent, left, right, total) && Chosen(N, weight, parent, a, b) && N + 1 < |parent|
    requires 0 <= nHeap < |heap| && heap[0] == 0 && Ordered(heap, weight', nHeap)
    requires parent' == parent[a := N + 1][b := N + 1][N + 1 := -1]
    requires Contents(heap, nHeap) == multiset(Roots(parent, N)) - multiset{a} - multiset{b} + multiset{N + 1}
    ensures HeapHolds(heap, nHeap, weight', parent', N + 1)
  {
    hide Forest, Weighed, Sized, Extracted, InOrder, Sum, Frequencies, Contents, Ordered;
    JoinRoots(n, N, parent, left, right, a, b);
  }

  /** One turn of the joining loop: take the two lightest roots and put their join back. */
  method Join(heap: array<int>, weight: array<int>, parent: array<int>, alphaSize: int, nNodes0: int, nHeap0: int,
              ghost left0: seq<int>, ghost right0: seq<int>, ghost total: int)
      returns (nNodes: int, nHeap: int, ghost left: seq<int>, ghost right: seq<int>)
    requires heap != weight && heap != parent && weight != parent
    requires Growing(alphaSize, nNodes0, weight[..], parent[..], left0, right0, total)
    requires HeapHolds(heap[..], nHeap0, weight[..], parent[..], nNodes0)
    requires nHeap0 > 1 && 1 <= alphaSize <= nNodes0 && nNodes0 + 1 < weight.Length == parent.Length && weight[0] == 0
    modifies heap, weight, parent
    ensures nNodes == nNodes0 + 1 && nHeap == nHeap0 - 1 && weight[0] == 0
    ensures weight[..nNodes] == old(weight[..nNodes])
    ensures Growing(alphaSize, nNodes, weight[..], parent[..], left, right, total)
    ensures HeapHolds(heap[..], nHeap, weight[..], parent[..], nNodes)
  {
    hide *;
    ghost var w, p := weight[..], parent[..];
    HeapFacts(heap[..], nHeap0, w, p, nNodes0);
    ghost var held := Contents(heap[..], nHeap0);
    var n1, n2;
    n1, nHeap := Pop(heap, weight, nHeap0);
    n2, nHeap := Pop(heap, weight, nHeap);
    TwoChosen(nNodes0, w, p, held, n1, n2);
    NewIsAbsent(p, nNodes0, Contents(heap[..], nHeap), n1, n2);
    left, right := JoinGrows(alphaSize, nNodes0, w, p, left0, right0, total, n1, n2);
    nNodes := nNodes0 + 1;
    parent[n1], parent[n2] := nNodes, nNodes;
    var sum := AddWeights(weight[n1], weight[n2]);
    OrderedFrame(heap[..], nHeap, w, nNodes, sum);
    weight[nNodes] := sum;
    parent[nNodes] := -1;
    ghost var w', p' := weight[..], parent[..];
    assert w' == w[nNodes := sum] && p' == p[n1 := nNodes][n2 := nNodes][nNodes := -1];
    nHeap := Push(heap, weight, nHeap, nNodes);
    HeapAfterJoin(heap[..], nHeap, alphaSize, nNodes0, w, p, left0, right0, total, n1, n2, w', p');
  }

  // ----- filling the heap and joining to the end ----------------------------------------------------------------

  lemma RootsGrow(heap: seq<int>, nHeap: int, weight: seq<int>, parent: seq<int>, i: int)
    requires HeapHolds(heap, nHeap, weight, parent, i - 1) && 1 <= i < |parent|
    ensures multiset(Roots(parent[i := -1], i)) == Contents(heap, nHeap) + multiset{i}
  {
    assert Roots(parent[i := -1], i) == Roots(parent, i - 1) + {i};
  }

  lemma EmptyHeap(heap: seq<int>, weight: seq<int>, parent: seq<int>)
    requires |heap| > 1 && |parent| > 0 && heap[0] == 0 && forall x {:trigger weight[x]} :: 0 <= x < |weight| ==>
      0 <= weight[x]
    ensures HeapHolds(heap, 0, weight, parent, 0)
  {
    assert heap[1..1] == [];
    assert Roots(parent, 0) == {};
  }

  lemma HeapHoldsIntro(heap: seq<int>, nHeap: int, weight: seq<int>, parent: seq<int>, N: int)
    requires 0 <= nHeap < |heap| && 0 <= N < |parent| && heap[0] == 0
    requires Ordered(heap, weight, nHeap) && Contents(heap, nHeap) == multiset(Roots(parent, N))
    ensures HeapHolds(heap, nHeap, weight, parent, N)
  {
  }

  /** The first loop: every leaf is a root and goes on the heap. */
  method FillHeap(heap: array<int>, weight: array<int>, parent: array<int>, alphaSize: int) returns (nHeap: int)
    requires heap != weight && heap != parent && weight != parent
    requires 1 <= alphaSize < parent.Length == weight.Length && alphaSize + 1 < heap.Length
    requires forall x {:trigger weight[x]} :: 1 <= x < weight.Length ==> 0 <= weight[x]
    modifies heap, weight, parent
    ensures weight[..] == old(weight[..])[0 := 0]
    ensures nHeap == alphaSize && HeapHolds(heap[..], nHeap, weight[..], parent[..], alphaSize)
    ensures forall x {:trigger parent[x]} :: 1 <= x <= alphaSize ==> parent[x] == -1
  {
    hide *;
    nHeap := 0;
    heap[0] := 0;
    weight[0] := 0;
    parent[0] := -2;
    ghost var w := weight[..];
    EmptyHeap(heap[..], w, parent[..]);
    var i := 1;
    while i <= alphaSize
      invariant 1 <= i <= alphaSize + 1 && nHeap == i - 1 && heap[0] == 0
      invariant weight[..] == w && w[0] == 0
      invariant HeapHolds(heap[..], nHeap, weight[..], parent[..], i - 1)
      invariant forall x {:trigger parent[x]} :: 1 <= x < i ==> parent[x] == -1
    {
      ghost var p := parent[..];
      HeapFacts(heap[..], nHeap, w, p, i - 1);
      RootsGrow(heap[..], nHeap, w, p, i);
      parent[i] := -1;
      assert parent[..] == p[i := -1];
      nHeap := Push(heap, weight, nHeap, i);
      HeapHoldsIntro(heap[..], nHeap, w, parent[..], i);
      i := i + 1;
    }
  }

  lemma {:induction false} LeafWithin(freq: seq<int>, n: int, rounds: nat, i: int)
    requires Counts(freq, n) && 0 <= i < n
    ensures 1 <= Scaled(freq, i, rounds) <= Total(freq, n, rounds)
    decreases n
  {
    hide Scaled;
    TotalNonNegative(freq, n - 1, rounds);
    if i < n - 1 { LeafWithin(freq, n - 1, rounds, i); }
  }

  lemma {:induction false} TotalNonNegative(freq: seq<int>, n: int, rounds: nat)
    requires 0 <= n <= |freq| && forall i {:trigger freq[i]} :: 0 <= i < n ==> freq[i] >= 0
    ensures Total(freq, n, rounds) >= 0
    decreases n
  {
    hide Scaled;
    if n > 0 { TotalNonNegative(freq, n - 1, rounds); }
  }

  lemma GrowingStart(weight: seq<int>, freq: seq<int>, n: int, rounds: nat, parent: seq<int>, left: seq<int>,
                     right: seq<int>)
    requires Leaves(weight, freq, n, rounds) && Total(freq, n, rounds) < TOTAL_LIMIT && weight[0] == 0
    requires |parent| == |left| == |right| == |weight|
    requires forall x {:trigger parent[x]} :: 1 <= x <= n ==> parent[x] == -1
    ensures Growing(n, n, weight, parent, left, right, Total(freq, n, rounds))
  {
    hide *;
    LeavesSizes(weight, freq, n, rounds);
    TotalIsSum(weight, freq, n, rounds, n);
    LeavesSized(weight, freq, n, rounds);
    OnlyLeaves(weight, n, parent, left, right, Total(freq, n, rounds));
  }

  lemma OnlyLeaves(weight: seq<int>, n: int, parent: seq<int>, left: seq<int>, right: seq<int>, total: int)
    requires 1 <= n <= MAX_ALPHA_SIZE && |parent| == |left| == |right| == |weight| == 2 * MAX_ALPHA_SIZE
      && weight[0] == 0
    requires forall x {:trigger parent[x]} :: 1 <= x <= n ==> parent[x] == -1
    requires forall x {:trigger weight[x]} :: 1 <= x <= n ==>
      D(weight[x]) == 0 && 0 <= weight[x] && 1 <= W(weight[x]) <= total
    requires total == Sum(Frequencies(weight), n) < TOTAL_LIMIT
    ensures Growing(n, n, weight, parent, left, right, total)
  {
    assert Fib(2) == 1;
    hide W, D, Sum, Frequencies, Fib;
  }

  lemma LeavesSized(weight: seq<int>, freq: seq<int>, n: int, rounds: nat)
    requires Leaves(weight, freq, n, rounds)
    ensures forall x {:trigger weight[x]} :: 1 <= x <= n ==>
      D(weight[x]) == 0 && 0 <= weight[x] && 1 <= W(weight[x]) <= Total(freq, n, rounds)
  {
    hide Scaled, Total, D, W;
    forall x {:trigger weight[x]} | 1 <= x <= n
      ensures D(weight[x]) == 0 && 0 <= weight[x] && 1 <= W(weight[x]) <= Total(freq, n, rounds)
    {
      LeafWithin(freq, n, rounds, x - 1);
      assert weight[x] == 256 * Scaled(freq, x - 1, rounds);
      Pure(Scaled(freq, x - 1, rounds));
    }
  }

  lemma Pure(x: int)
    ensures W(256 * x) == x && D(256 * x) == 0
  {
  }

  /** The whole tree: one root, and every leaf still weighing its scaled frequency. */
  ghost predicate Grown(n: int, weight: seq<int>, parent: seq<int>, left: seq<int>, right: seq<int>, freq: seq<int>,
                        rounds: nat) {
    && Leaves(weight, freq, n, rounds) && |parent| == |weight|
    && Growing(n, 2 * n - 1, weight, parent, left, right, Total(freq, n, rounds))
    && Roots(parent, 2 * n - 1) == {2 * n - 1}
  }

  lemma FrontKept(s: seq<int>, s': seq<int>, k: int, n: int)
    requires 0 <= n < k <= |s| == |s'| && s'[..k] == s[..k]
    ensures forall x {:trigger s'[x]} :: 1 <= x <= n ==> s'[x] == s[x]
  {
    forall x {:trigger s'[x]} | 1 <= x <= n ensures s'[x] == s[x] { assert s'[..k][x] == s[..k][x]; }
  }

  lemma LeavesFrame(weight: seq<int>, weight': seq<int>, freq: seq<int>, n: int, rounds: nat)
    requires Leaves(weight, freq, n, rounds) && |weight'| == |weight|
    requires forall x {:trigger weight'[x]} :: 1 <= x <= n ==> weight'[x] == weight[x]
    ensures Leaves(weight', freq, n, rounds)
  {
    hide Scaled;
  }

  lemma OneLeft(heap: seq<int>, nHeap: int, n: int, weight: seq<int>, parent: seq<int>, left: seq<int>, right: seq<int>,
                freq: seq<int>, rounds: nat)
    requires HeapHolds(heap, nHeap, weight, parent, 2 * n - 1) && nHeap == 1
    requires Leaves(weight, freq, n, rounds) && |parent| == |weight|
    requires Growing(n, 2 * n - 1, weight, parent, left, right, Total(freq, n, rounds))
    ensures Grown(n, weight, parent, left, right, freq, rounds)
  {
    var roots := Roots(parent, 2 * n - 1);
    assert |multiset(roots)| == |heap[1..2]| == 1;
    assert 2 * n - 1 in roots;
    assert roots == {2 * n - 1} + (roots - {2 * n - 1});
  }

  /** Builds the tree over the scaled frequencies. */
  method BuildTree(heap: array<int>, weight: array<int>, parent: array<int>, alphaSize: int, ghost freq: seq<int>,
                   ghost rounds: nat)
      returns (ghost left: seq<int>, ghost right: seq<int>)
    requires heap != weight && heap != parent && weight != parent
    requires parent.Length == weight.Length == 2 * MAX_ALPHA_SIZE && heap.Length == MAX_ALPHA_SIZE + 2
    requires forall x {:trigger weight[x]} :: 1 <= x < weight.Length ==> 0 <= weight[x]
    requires Leaves(weight[..], freq, alphaSize, rounds) && Total(freq, alphaSize, rounds) < TOTAL_LIMIT
    modifies heap, weight, parent
    ensures Grown(alphaSize, weight[..], parent[..], left, right, freq, rounds)
    ensures forall x {:trigger weight[x]} :: 0 <= x < weight.Length ==> 0 <= weight[x]
  {
    hide *;
    LeavesSizes(weight[..], freq, alphaSize, rounds);
    ghost var total, w := Total(freq, alphaSize, rounds), weight[..];
    var nHeap := FillHeap(heap, weight, parent, alphaSize);
    FirstIsNothing(w, weight[..], freq, alphaSize, rounds);
    left, right := w, w;
    GrowingStart(weight[..], freq, alphaSize, rounds, parent[..], left, right);
    left, right := JoinAll(heap, weight, parent, alphaSize, freq, rounds, left, right, total);
  }

  lemma LeavesSizes(weight: seq<int>, freq: seq<int>, n: int, rounds: nat)
    requires Leaves(weight, freq, n, rounds)
    ensures 1 <= n <= |freq| && n <= MAX_ALPHA_SIZE == 258 && |weight| == 2 * MAX_ALPHA_SIZE
    ensures forall i {:trigger freq[i]} :: 0 <= i < n ==> freq[i] >= 0
  {
  }

  lemma FirstIsNothing(w: seq<int>, w': seq<int>, freq: seq<int>, n: int, rounds: nat)
    requires Leaves(w, freq, n, rounds) && |w| > 0 && w' == w[0 := 0]
    ensures Leaves(w', freq, n, rounds) && w'[0] == 0
  {
    LeavesFrame(w, w', freq, n, rounds);
  }

  /** Joins the two lightest roots until one is left. */
  method JoinAll(heap: array<int>, weight: array<int>, parent: array<int>, alphaSize: int, ghost freq: seq<int>,
                 ghost rounds: nat, ghost left0: seq<int>, ghost right0: seq<int>, ghost total: int)
      returns (ghost left: seq<int>, ghost right: seq<int>)
    requires heap != weight && heap != parent && weight != parent
    requires parent.Length == weight.Length == 2 * MAX_ALPHA_SIZE && 1 <= alphaSize <= MAX_ALPHA_SIZE == 258
    requires Leaves(weight[..], freq, alphaSize, rounds) && weight[0] == 0
    requires alphaSize <= |freq| && forall i {:trigger freq[i]} :: 0 <= i < alphaSize ==> freq[i] >= 0
    requires total == Total(freq, alphaSize, rounds)
    requires Growing(alphaSize, alphaSize, weight[..], parent[..], left0, right0, total)
    requires HeapHolds(heap[..], alphaSize, weight[..], parent[..], alphaSize)
    modifies heap, weight, parent
    ensures Grown(alphaSize, weight[..], parent[..], left, right, freq, rounds)
    ensures forall x {:trigger weight[x]} :: 0 <= x < weight.Length ==> 0 <= weight[x]
  {
    hide *;
    left, right := left0, right0;
    var nNodes, nHeap := alphaSize, alphaSize;
    while nHeap > 1
      invariant nNodes + nHeap == 2 * alphaSize && alphaSize <= nNodes && 1 <= nHeap && weight[0] == 0
      invariant Leaves(weight[..], freq, alphaSize, rounds)
      invariant Growing(alphaSize, nNodes, weight[..], parent[..], left, right, total)
      invariant HeapHolds(heap[..], nHeap, weight[..], parent[..], nNodes)
      decreases nHeap
    {
      ghost var before := weight[..];
      nNodes, nHeap, left, right := Join(heap, weight, parent, alphaSize, nNodes, nHeap, left, right, total);
      FrontKept(before, weight[..], nNodes, alphaSize);
      LeavesFrame(before, weight[..], freq, alphaSize, rounds);
    }
    OneLeft(heap[..], nHeap, alphaSize, weight[..], parent[..], left, right, freq, rounds);
    HeapFacts(heap[..], nHeap, weight[..], parent[..], nNodes);
    WeightsFit(heap[..], weight[..], nHeap);
  }

  lemma WeightsFit(heap: seq<int>, weight: seq<int>, n: int)
    requires Ordered(heap, weight, n)
    ensures forall x {:trigger weight[x]} :: 0 <= x < |weight| ==> 0 <= weight[x]
  {
  }

  // ----- the lengths -------------------------------------------------------------------------------------------

  /** len lists the depths of the leaves 1..|len|. */
  ghost predicate Measured(len: seq<int>, parent: seq<int>) {
    forall i {:trigger len[i]} :: 0 <= i < |len| ==> len[i] == Depth(parent, i + 1)
  }

  /** Reads off how deep each leaf lies. */
  method MeasureDepths(len: array<int>, parent: array<int>, alphaSize: int, maxLen: int, ghost N: int,
                       ghost left: seq<int>, ghost right: seq<int>)
      returns (tooLong: bool)
    requires len != parent && alphaSize <= len.Length && Forest(alphaSize, N, parent[..], left, right)
    modifies len
    ensures Measured(len[..alphaSize], parent[..]) && len[alphaSize..] == old(len[alphaSize..])
    ensures !tooLong ==> forall i {:trigger len[..alphaSize][i]} :: 0 <= i < alphaSize ==> len[..alphaSize][i] <= maxLen
    ensures tooLong ==> exists i :: 1 <= i <= alphaSize && Depth(parent[..], i) > maxLen
  {
    ghost var p := parent[..];
    ForestBounds(alphaSize, N, p, left, right);
    tooLong := false;
    var i := 1;
    while i <= alphaSize
      invariant 1 <= i <= alphaSize + 1
      invariant forall x {:trigger len[x]} :: 0 <= x < i - 1 ==> len[x] == Depth(p, x + 1)
      invariant forall x {:trigger len[x]} :: alphaSize <= x < len.Length ==> len[x] == old(len[x])
      invariant !tooLong ==> forall x {:trigger len[x]} :: 0 <= x < i - 1 ==> len[x] <= maxLen
      invariant tooLong ==> exists x :: 1 <= x < i && Depth(p, x) > maxLen
    {
      var j := DepthOf(parent, i, alphaSize, N, left, right);
      len[i - 1] := j;
      if j > maxLen { tooLong := true; }
      i := i + 1;
    }
  }

  /** Counts the joins above node i. */
  method DepthOf(parent: array<int>, i: int, ghost n: int, ghost N: int, ghost left: seq<int>, ghost right: seq<int>)
    returns (j: int)
    requires Forest(n, N, parent[..], left, right) && 1 <= i <= N
    ensures j == Depth(parent[..], i)
  {
    ghost var p := parent[..];
    var k := i;
    j := 0;
    while parent[k] >= 0
      invariant 1 <= k <= N && j + Depth(p, k) == Depth(p, i)
      decreases N - k
    {
      assert parent[k] == p[k];
      k := parent[k];
      j := j + 1;
    }
    assert parent[k] == p[k];
  }

  ghost predicate Complete(len: seq<int>, maxLen: nat) {
    && (forall i {:trigger len[i]} :: 0 <= i < |len| ==> 0 <= len[i] <= maxLen)
    && (|len| >= 2 ==> forall i {:trigger len[i]} :: 0 <= i < |len| ==> 1 <= len[i])
    && Kraft(len, maxLen) == Pow2(maxLen)
  }

  ghost function Share(parent: seq<int>, maxLen: int, x: int): int {
    if Depth(parent, x) <= maxLen then Pow2(maxLen - Depth(parent, x)) else 0
  }

  ghost function Shares(parent: seq<int>, maxLen: int): (f: seq<int>)
    ensures |f| == |parent|
  {
    seq(|parent|, x => Share(parent, maxLen, x))
  }

  lemma {:induction false} NoneDeeper(n: int, N: int, parent: seq<int>, left: seq<int>, right: seq<int>, maxLen: int,
                                      x: int)
    requires Forest(n, N, parent, left, right) && 1 <= x <= N
    requires forall i {:trigger Depth(parent, i)} :: 1 <= i <= n ==> Depth(parent, i) <= maxLen
    ensures Depth(parent, x) <= maxLen && (x > n ==> Depth(parent, x) < maxLen)
    decreases x
  {
    if x > n {
      var l := left[x];
      assert parent[l] == x;
      NoneDeeper(n, N, parent, left, right, maxLen, l);
    }
  }

  lemma SharesAddUp(n: int, N: int, parent: seq<int>, left: seq<int>, right: seq<int>, maxLen: int)
    requires Forest(n, N, parent, left, right)
    requires forall i {:trigger Depth(parent, i)} :: 1 <= i <= n ==> Depth(parent, i) <= maxLen
    ensures AddsUp(Shares(parent, maxLen), n, N, parent, left, right)
  {
    var f := Shares(parent, maxLen);
    forall u {:trigger left[u]} | n < u <= N ensures f[u] == f[left[u]] + f[right[u]] {
      var l, r := left[u], right[u];
      assert parent[l] == u && parent[r] == u;
      NoneDeeper(n, N, parent, left, right, maxLen, u);
      assert Depth(parent, l) == 1 + Depth(parent, u) && Depth(parent, r) == 1 + Depth(parent, u);
      hide Depth;
      assert Pow2(maxLen - Depth(parent, u)) == 2 * Pow2(maxLen - Depth(parent, l));
    }
  }

  lemma {:induction false} KraftIsSum(len: seq<int>, parent: seq<int>, maxLen: nat)
    requires |len| < |parent|
    requires forall i {:trigger len[i]} :: 0 <= i < |len| ==> 0 <= len[i] <= maxLen && len[i] == Depth(parent, i + 1)
    ensures Kraft(len, maxLen) == Sum(Shares(parent, maxLen), |len|)
    decreases |len|
  {
    hide Depth;
    if len != [] {
      var t := len[..|len| - 1];
      assert forall i {:trigger t[i]} :: 0 <= i < |t| ==> t[i] == len[i];
      KraftIsSum(t, parent, maxLen);
      assert len[|len| - 1] == Depth(parent, |len|);
    }
  }

  lemma RootDepth(n: int, parent: seq<int>, left: seq<int>, right: seq<int>, N: int, x: int)
    requires Forest(n, N, parent, left, right) && Roots(parent, N) == {N} && 1 <= x <= N
    ensures (x == N ==> Depth(parent, x) == 0) && (x < N ==> Depth(parent, x) >= 1)
  {
    assert (x in Roots(parent, N)) == (x == N);
  }

  lemma MeasuredWithin(len: seq<int>, parent: seq<int>, maxLen: nat)
    requires Measured(len, parent) && forall i {:trigger len[i]} :: 0 <= i < |len| ==> len[i] <= maxLen
    ensures forall i {:trigger Depth(parent, i)} :: 1 <= i <= |len| ==> Depth(parent, i) <= maxLen
    ensures forall i {:trigger len[i]} :: 0 <= i < |len| ==> 0 <= len[i] <= maxLen && len[i] == Depth(parent, i + 1)
  {
    forall i {:trigger Depth(parent, i)} | 1 <= i <= |len| ensures Depth(parent, i) <= maxLen {
      assert len[i - 1] == Depth(parent, i);
    }
  }

  lemma KraftIsOne(n: int, N: int, parent: seq<int>, left: seq<int>, right: seq<int>, len: seq<int>, maxLen: nat)
    requires Forest(n, N, parent, left, right) && Roots(parent, N) == {N} && |len| == n
    requires Measured(len, parent) && forall i {:trigger len[i]} :: 0 <= i < n ==> len[i] <= maxLen
    ensures forall i {:trigger len[i]} :: 0 <= i < n ==> 0 <= len[i] <= maxLen
    ensures Kraft(len, maxLen) == Pow2(maxLen)
  {
    hide *;
    ForestBounds(n, N, parent, left, right);
    MeasuredWithin(len, parent, maxLen);
    SharesAddUp(n, N, parent, left, right, maxLen);
    RootHoldsLeaves(Shares(parent, maxLen), n, N, parent, left, right);
    RootShare(n, N, parent, left, right, maxLen);
    KraftIsSum(len, parent, maxLen);
  }

  /** Depths no larger than maxLen are the lengths of a complete code. */
  lemma DepthsComplete(n: int, N: int, parent: seq<int>, left: seq<int>, right: seq<int>, len: seq<int>, maxLen: nat)
    requires Forest(n, N, parent, left, right) && Roots(parent, N) == {N} && N == 2 * n - 1 && |len| == n
    requires Measured(len, parent) && forall i {:trigger len[i]} :: 0 <= i < n ==> len[i] <= maxLen
    ensures Complete(len, maxLen)
  {
    hide Forest, Depth, Kraft, Roots;
    ForestBounds(n, N, parent, left, right);
    KraftIsOne(n, N, parent, left, right, len, maxLen);
    forall i {:trigger len[i]} | 0 <= i < |len| && |len| >= 2 ensures 1 <= len[i] {
      RootDepth(n, parent, left, right, N, i + 1);
    }
  }

  lemma RootShare(n: int, N: int, parent: seq<int>, left: seq<int>, right: seq<int>, maxLen: nat)
    requires Forest(n, N, parent, left, right) && Roots(parent, N) == {N}
    ensures Shares(parent, maxLen)[N] == Pow2(maxLen)
  {
    RootDepth(n, parent, left, right, N, N);
  }

  /** A symbol that is rarer than another, as scaled, has no shorter a code. */
  ghost predicate RarerNoShorter(len: seq<int>, freq: seq<int>, rounds: nat)
    requires |len| <= |freq| && forall i {:trigger freq[i]} :: 0 <= i < |len| ==> freq[i] >= 0
  {
    forall i, j {:trigger len[i], len[j]} ::
      0 <= i < |len| && 0 <= j < |len| && Scaled(freq, i, rounds) < Scaled(freq, j, rounds) ==> len[i] >= len[j]
  }

  lemma LeafWeights(n: int, weight: seq<int>, parent: seq<int>, left: seq<int>, right: seq<int>, freq: seq<int>,
                    rounds: nat, i: int, j: int)
    requires Grown(n, weight, parent, left, right, freq, rounds) && 0 <= i < n <= |freq| && 0 <= j < n
    requires freq[i] >= 0 && freq[j] >= 0 && Scaled(freq, i, rounds) < Scaled(freq, j, rounds)
    ensures n <= 2 * n - 1 < |weight| == |parent| && W(weight[i + 1]) < W(weight[j + 1])
    ensures Forest(n, 2 * n - 1, parent, left, right) && Weighed(n, 2 * n - 1, weight, left, right)
    ensures Extracted(2 * n - 1, weight, parent) && InOrder(2 * n - 1, weight, parent)
  {
    hide Scaled, Total, Forest, Weighed, Sized, Extracted, InOrder, Roots;
    assert weight[i + 1] == 256 * Scaled(freq, i, rounds) && weight[j + 1] == 256 * Scaled(freq, j, rounds);
  }

  lemma DepthsOrdered(n: int, weight: seq<int>, parent: seq<int>, left: seq<int>, right: seq<int>, freq: seq<int>,
                      rounds: nat, len: seq<int>)
    requires Grown(n, weight, parent, left, right, freq, rounds) && |len| == n && Measured(len, parent)
    requires n <= |freq| && forall i {:trigger freq[i]} :: 0 <= i < n ==> freq[i] >= 0
    ensures RarerNoShorter(len, freq, rounds)
  {
    hide Grown, Scaled, Depth, Forest, Weighed, Extracted, InOrder, W;
    forall i, j {:trigger len[i], len[j]} | 0 <= i < n && 0 <= j < n
      && Scaled(freq, i, rounds) < Scaled(freq, j, rounds)
      ensures len[i] >= len[j]
    {
      LeafWeights(n, weight, parent, left, right, freq, rounds, i, j);
      LighterIsDeeper(n, 2 * n - 1, weight, parent, left, right, i + 1, j + 1);
    }
  }

  // ----- the least cost --------------------------------------------------------------------------------------------

  /** What lengths cost: each symbol's as often as it occurs, as scaled. */
  ghost function Spent(len: seq<int>, freq: seq<int>, rounds: nat, n: nat): int
    requires n <= |len| && n <= |freq| && forall i {:trigger freq[i]} :: 0 <= i < n ==> freq[i] >= 0
  {
    if n == 0 then 0 else Spent(len, freq, rounds, n - 1) + Scaled(freq, n - 1, rounds) * len[n - 1]
  }

  /** No lengths of which there is room for all cost less. */
  ghost predicate Cheapest(len: seq<int>, freq: seq<int>, rounds: nat)
    requires |len| <= |freq| && forall i {:trigger freq[i]} :: 0 <= i < |len| ==> freq[i] >= 0
  {
    forall other: seq<int>, max: nat {:trigger Roomy(other, max)} :: |other| == |len| && Roomy(other, max) ==>
      Spent(len, freq, rounds, |len|) <= Spent(other, freq, rounds, |len|)
  }

  /** Lengths from 0 to max with a Kraft sum of at most one. */
  ghost predicate Roomy(len: seq<int>, max: nat) {
    (forall i {:trigger len[i]} :: 0 <= i < |len| ==> 0 <= len[i] <= max) && Kraft(len, max) <= Pow2(max)
  }

  ghost function AllOf(n: nat): (live: seq<bool>)
    ensures |live| == n && forall i {:trigger live[i]} :: 0 <= i < n ==> live[i]
  {
    seq(n, i => true)
  }

  /** The nodes numbered from 0. */
  ghost function Parents(parent: seq<int>, N: nat): (par: seq<int>)
    requires N + 1 < |parent|
    ensures |par| == N + 1
    ensures forall x {:trigger par[x]} :: 0 <= x <= N ==> par[x] == if parent[x + 1] < 0 then N + 1
      else parent[x + 1] - 1
  {
    seq(N + 1, x requires 0 <= x <= N => if parent[x + 1] < 0 then N + 1 else parent[x + 1] - 1)
  }

  /** One of the two that a node joins, the lighter or the other. */
  ghost function Child(weight: seq<int>, left: seq<int>, right: seq<int>, t: int, first: bool): int
    requires 0 <= t < |left| && t < |right|
  {
    var a, b := left[t], right[t];
    if !(0 <= a < |weight| && 0 <= b < |weight|) then 0
    else if (W(weight[a]) <= W(weight[b])) == first then a else b
  }

  ghost function Children(weight: seq<int>, left: seq<int>, right: seq<int>, N: nat, first: bool): (c: seq<int>)
    requires N + 1 < |left| && N + 1 < |right|
    ensures |c| == N + 1
    ensures forall t {:trigger c[t]} :: 0 <= t <= N ==> c[t] == Child(weight, left, right, t + 1, first) - 1
  {
    seq(N + 1, t requires 0 <= t <= N => Child(weight, left, right, t + 1, first) - 1)
  }

  ghost function Masses(weight: seq<int>, N: nat): (f: seq<int>)
    requires N + 1 < |weight|
    ensures |f| == N + 1 && forall x {:trigger f[x]} :: 0 <= x <= N ==> f[x] == W(weight[x + 1])
  {
    seq(N + 1, x requires 0 <= x <= N => W(weight[x + 1]))
  }

  ghost function Depths(parent: seq<int>, N: nat): (dep: seq<int>)
    requires N + 1 < |parent|
    ensures |dep| == N + 1 && forall x {:trigger dep[x]} :: 0 <= x <= N ==> dep[x] == Depth(parent, x + 1)
  {
    seq(N + 1, x requires 0 <= x <= N => Depth(parent, x + 1))
  }

  lemma ParentAt(n: nat, N: nat, parent: seq<int>, left: seq<int>, right: seq<int>, x: nat)
    requires Forest(n, N + 1, parent, left, right) && Roots(parent, N + 1) == {N + 1} && x < N
    ensures N + 1 < |parent| == |left| == |right|
    ensures var p := parent[x + 1]; n < p <= N + 1 && x + 1 < p && (x + 1 == left[p] || x + 1 == right[p])
    ensures parent[N + 1] < 0
  {
    assert N + 1 in Roots(parent, N + 1);
    assert x + 1 !in Roots(parent, N + 1);
  }

  lemma ChildrenAt(n: nat, N: nat, parent: seq<int>, left: seq<int>, right: seq<int>, weight: seq<int>, t: nat)
    requires Forest(n, N + 1, parent, left, right) && N + 1 < |weight| && n <= t <= N
    ensures N + 1 < |parent| == |left| == |right|
    ensures var a, b := Child(weight, left, right, t + 1, true), Child(weight, left, right, t + 1, false);
      && 1 <= a <= t && 1 <= b <= t && a != b && parent[a] == parent[b] == t + 1 && W(weight[a]) <= W(weight[b])
      && ((a == left[t + 1] && b == right[t + 1]) || (a == right[t + 1] && b == left[t + 1]))
  {
    hide W;
    assert 1 <= left[t + 1] < t + 1;
  }

  /** The tree that was built is one of those whose depths cost the least. */
  lemma BuiltTree(n: nat, N: nat, parent: seq<int>, left: seq<int>, right: seq<int>, weight: seq<int>)
    requires n >= 2 && N == 2 * n - 2 && Forest(n, N + 1, parent, left, right) && N + 1 < |weight|
    requires Roots(parent, N + 1) == {N + 1}
    ensures N + 1 < |parent| == |left| == |right|
    ensures O.Tree(n, N, Parents(parent, N), Children(weight, left, right, N, true),
      Children(weight, left, right, N, false),
              Masses(weight, N))
  {
    hide *;
    ParentAt(n, N, parent, left, right, 0);
    var par, a, b := Parents(parent, N), Children(weight, left, right, N, true),
      Children(weight, left, right, N, false);
    var f := Masses(weight, N);
    forall x: nat {:trigger O.NodeAt(n, N, par, a, b, f, x)} | x <= N ensures O.NodeAt(n, N, par, a, b, f, x) {
      NodeBuilt(n, N, parent, left, right, weight, x);
    }
    O.TreeFrom(n, N, par, a, b, f);
  }

  lemma NodeBuilt(n: nat, N: nat, parent: seq<int>, left: seq<int>, right: seq<int>, weight: seq<int>, x: nat)
    requires n >= 2 && N == 2 * n - 2 && Forest(n, N + 1, parent, left, right) && N + 1 < |weight|
    requires Roots(parent, N + 1) == {N + 1} && x <= N
    ensures N + 1 < |parent| == |left| == |right|
    ensures O.NodeAt(n, N, Parents(parent, N), Children(weight, left, right, N, true),
              Children(weight, left, right, N, false), Masses(weight, N), x)
  {
    hide W, Forest, Child, Roots, Parents, Children, Masses;
    ParentAt(n, N, parent, left, right, 0);
    if x < N {
      ParentAt(n, N, parent, left, right, x);
      ChildrenAt(n, N, parent, left, right, weight, parent[x + 1] - 1);
    }
    if n <= x { ChildrenAt(n, N, parent, left, right, weight, x); }
  }

  /** Each join weighs what its two nodes do, and earlier joins are no heavier. */
  lemma BuiltHeavier(n: nat, N: nat, parent: seq<int>, left: seq<int>, right: seq<int>, weight: seq<int>)
    requires n >= 2 && N == 2 * n - 2 && Forest(n, N + 1, parent, left, right)
    requires Weighed(n, N + 1, weight, left, right) && Extracted(N + 1, weight, parent)
      && InOrder(N + 1, weight, parent)
    requires N + 1 < |weight| && forall x {:trigger weight[x]} :: 1 <= x <= N + 1 ==> weight[x] >= 0
    requires N + 1 < |parent| == |left| == |right| && Roots(parent, N + 1) == {N + 1}
    requires O.Tree(n, N, Parents(parent, N), Children(weight, left, right, N, true),
               Children(weight, left, right, N, false), Masses(weight, N))
    ensures O.Heavier(n, N, Parents(parent, N), Children(weight, left, right, N, true),
              Children(weight, left, right, N, false), Masses(weight, N))
  {
    hide *;
    var par, a, b := Parents(parent, N), Children(weight, left, right, N, true),
      Children(weight, left, right, N, false);
    var f := Masses(weight, N);
    O.TreeSizes(n, N, par, a, b, f);
    forall t: nat {:trigger O.JoinAt(N, a, b, f, t)} | n <= t <= N ensures O.JoinAt(N, a, b, f, t) {
      JoinBuilt(n, N, parent, left, right, weight, t);
    }
    forall x {:trigger f[x]} | 0 <= x <= N ensures f[x] >= 0 { UpperPart(0, weight[x + 1]); }
    forall x: nat, y: nat {:trigger O.NoHeavier(par, f, x, y)} | x <= N && y <= N ensures O.NoHeavier(par, f, x, y) {
      NoHeavierBuilt(n, N, parent, left, right, weight, x, y);
    }
    O.HeavierFrom(n, N, par, a, b, f);
  }

  lemma JoinBuilt(n: nat, N: nat, parent: seq<int>, left: seq<int>, right: seq<int>, weight: seq<int>, t: nat)
    requires Forest(n, N + 1, parent, left, right) && Weighed(n, N + 1, weight, left, right) && n <= t <= N
    ensures N + 1 < |weight| == |left| == |right|
    ensures O.JoinAt(N, Children(weight, left, right, N, true), Children(weight, left, right, N, false),
              Masses(weight, N), t)
  {
    hide Forest, Child, Weighed, W, Children, Masses;
    JoinWeighs(n, N + 1, weight, left, right, t + 1);
    ChildrenAt(n, N, parent, left, right, weight, t);
  }

  lemma NoHeavierBuilt(n: nat, N: nat, parent: seq<int>, left: seq<int>, right: seq<int>, weight: seq<int>, x: nat,
    y: nat)
    requires Forest(n, N + 1, parent, left, right) && Roots(parent, N + 1) == {N + 1} && N >= 1
    requires Extracted(N + 1, weight, parent) && InOrder(N + 1, weight, parent) && x <= N && y <= N
    ensures N + 1 < |parent| == |weight| && O.NoHeavier(Parents(parent, N), Masses(weight, N), x, y)
  {
    ParentAt(n, N, parent, left, right, 0);
    if 0 <= Parents(parent, N)[x] < Parents(parent, N)[y] {
      JoinedFirst(n, N, parent, left, right, weight, x, y);
      UpperPart(weight[x + 1], weight[y + 1]);
    }
    hide Forest, Roots, InOrder, W;
  }

  lemma JoinWeighs(n: nat, N: nat, weight: seq<int>, left: seq<int>, right: seq<int>, t: nat)
    requires Weighed(n, N, weight, left, right) && n < t <= N
    ensures N < |weight| == |left| == |right|
    ensures 1 <= left[t] < t && 1 <= right[t] < t && W(weight[t]) == W(weight[left[t]]) + W(weight[right[t]])
  {
    hide W, D;
  }

  lemma JoinedFirst(n: nat, N: nat, parent: seq<int>, left: seq<int>, right: seq<int>, weight: seq<int>, x: nat, y: nat)
    requires Forest(n, N + 1, parent, left, right) && Roots(parent, N + 1) == {N + 1} && N >= 1
    requires Extracted(N + 1, weight, parent) && InOrder(N + 1, weight, parent) && x <= N && y <= N
    requires N + 1 < |parent| && 0 <= Parents(parent, N)[x] < Parents(parent, N)[y]
    ensures weight[x + 1] <= weight[y + 1]
  {
    if x < N { ParentAt(n, N, parent, left, right, x); }
    if y < N { ParentAt(n, N, parent, left, right, y); }
    ParentAt(n, N, parent, left, right, 0);
    hide Forest, Roots;
  }

  lemma {:induction false} CostIsSpent(f: seq<int>, len: seq<int>, freq: seq<int>, rounds: nat, n: nat)
    requires n <= |len| && n <= |freq| && n <= |f| && forall i {:trigger freq[i]} :: 0 <= i < n ==> freq[i] >= 0
    requires forall i {:trigger f[i]} :: 0 <= i < n ==> f[i] == Scaled(freq, i, rounds)
    ensures O.Cost(AllOf(n), f, len) == Spent(len, freq, rounds, n)
    decreases n
  {
    if n == 0 {
      assert O.Terms(AllOf(0), f, len) == [];
    } else {
      CostIsSpent(f, len, freq, rounds, n - 1);
      O.CostMore(AllOf(n - 1), f, len);
      assert AllOf(n) == AllOf(n - 1) + [true];
      assert freq[n - 1] >= 0 && f[n - 1] == Scaled(freq, n - 1, rounds);
      hide O.Cost, Scaled;
    }
  }

  lemma {:induction false} RoomIsKraft(len: seq<int>, max: nat, n: nat)
    requires n <= |len| && forall i {:trigger len[i]} :: 0 <= i < |len| ==> 0 <= len[i] <= max
    ensures O.Room(AllOf(n), len, max) == Kraft(len[..n], max)
    decreases n
  {
    if n == 0 {
      assert O.Shares(AllOf(0), len, max) == [];
    } else {
      RoomIsKraft(len, max, n - 1);
      O.RoomMore(AllOf(n - 1), len, max);
      assert AllOf(n) == AllOf(n - 1) + [true];
      assert len[..n][..n - 1] == len[..n - 1];
      hide O.Room;
    }
  }

  lemma DepthsDeep(n: nat, N: nat, parent: seq<int>, left: seq<int>, right: seq<int>)
    requires n >= 2 && N == 2 * n - 2 && Forest(n, N + 1, parent, left, right) && Roots(parent, N + 1) == {N + 1}
    ensures N + 1 < |parent| && O.Deep(N, Parents(parent, N), Depths(parent, N))
  {
    ParentAt(n, N, parent, left, right, 0);
    var par, dep := Parents(parent, N), Depths(parent, N);
    forall x {:trigger dep[x]} {:trigger par[x]} | 0 <= x < N && 0 <= par[x] <= N ensures dep[x] == dep[par[x]] + 1 {
      ParentAt(n, N, parent, left, right, x);
    }
    hide Forest, Roots;
  }

  lemma LeavesLive(n: nat, N: nat, parent: seq<int>, left: seq<int>, right: seq<int>)
    requires n >= 2 && N == 2 * n - 2 && Forest(n, N + 1, parent, left, right) && Roots(parent, N + 1) == {N + 1}
    ensures N + 1 < |parent| && O.LiveAt(Parents(parent, N), n - 1) == AllOf(n)
  {
    ParentAt(n, N, parent, left, right, 0);
    var par := Parents(parent, N);
    var live := O.LiveAt(par, n - 1);
    forall x {:trigger live[x]} | 0 <= x < n ensures live[x] { ParentAt(n, N, parent, left, right, x); }
    hide Forest, Roots;
  }

  /** The lengths of the tree are the cheapest. */
  lemma TreeCheapest(n: nat, N: nat, weight: seq<int>, parent: seq<int>, left: seq<int>, right: seq<int>,
                     freq: seq<int>, rounds: nat, len: seq<int>)
    requires n >= 2 && N == 2 * n - 2 && Forest(n, N + 1, parent, left, right) && Roots(parent, N + 1) == {N + 1}
    requires Weighed(n, N + 1, weight, left, right) && Extracted(N + 1, weight, parent)
      && InOrder(N + 1, weight, parent)
    requires N + 1 < |weight| && forall x {:trigger weight[x]} :: 1 <= x <= N + 1 ==> weight[x] >= 0
    requires |len| == n <= |freq| && Measured(len, parent)
    requires forall i {:trigger freq[i]} :: 0 <= i < n ==> freq[i] >= 0 && W(weight[i + 1]) == Scaled(freq, i, rounds)
    ensures Cheapest(len, freq, rounds)
  {
    hide *;
    ForestBounds(n, N + 1, parent, left, right);
    BuiltTree(n, N, parent, left, right, weight);
    BuiltHeavier(n, N, parent, left, right, weight);
    DepthsDeep(n, N, parent, left, right);
    LeavesLive(n, N, parent, left, right);
    var f, dep := Masses(weight, N), Depths(parent, N);
    O.HuffmanLeast(n, N, Parents(parent, N), Children(weight, left, right, N, true),
      Children(weight, left, right, N, false), f, dep);
    MeasuredDepths(len, parent, N, n);
    SameCost(f, dep, len, n);
    forall i {:trigger f[i]} | 0 <= i < n ensures f[i] == Scaled(freq, i, rounds) { assert freq[i] >= 0; }
    CostIsSpent(f, len, freq, rounds, n);
    CheapestFrom(f, len, freq, rounds);
  }

  lemma MeasuredDepths(len: seq<int>, parent: seq<int>, N: nat, n: nat)
    requires N + 1 < |parent| && |len| == n <= N + 1 && Measured(len, parent)
    ensures forall i {:trigger len[i]} :: 0 <= i < n ==> len[i] == Depths(parent, N)[i]
  {
    hide Depth;
  }

  lemma SameCost(f: seq<int>, dep: seq<int>, len: seq<int>, n: nat)
    requires n <= |f| && n <= |dep| && n <= |len| && forall i {:trigger len[i]} :: 0 <= i < n ==> len[i] == dep[i]
    ensures O.Cost(AllOf(n), f, dep) == O.Cost(AllOf(n), f, len)
  {
    assert O.Terms(AllOf(n), f, dep) == O.Terms(AllOf(n), f, len);
    hide O.All;
  }

  lemma CheapestFrom(f: seq<int>, len: seq<int>, freq: seq<int>, rounds: nat)
    requires |len| <= |freq| && |len| <= |f|
    requires forall i {:trigger freq[i]} :: 0 <= i < |len| ==> freq[i] >= 0
    requires forall i {:trigger f[i]} :: 0 <= i < |len| ==> f[i] == Scaled(freq, i, rounds)
    requires O.AtLeast(AllOf(|len|), f, Spent(len, freq, rounds, |len|))
    ensures Cheapest(len, freq, rounds)
  {
    hide Kraft, Scaled, O.Room, O.Cost, Spent;
    forall other: seq<int>, max: nat {:trigger Roomy(other, max)} | |other| == |len| && Roomy(other, max)
      ensures Spent(len, freq, rounds, |len|) <= Spent(other, freq, rounds, |len|)
    {
      RoomIsKraft(other, max, |len|);
      assert other[..|len|] == other;
      assert O.Fits(AllOf(|len|), other, max);
      CostIsSpent(f, other, freq, rounds, |len|);
    }
  }

  lemma DepthsCheapest(n: nat, weight: seq<int>, parent: seq<int>, left: seq<int>, right: seq<int>, freq: seq<int>,
                       rounds: nat, len: seq<int>)
    requires Grown(n, weight, parent, left, right, freq, rounds) && |len| == n && Measured(len, parent)
    requires n <= |freq| && forall i {:trigger freq[i]} :: 0 <= i < n ==> freq[i] >= 0
    ensures Cheapest(len, freq, rounds)
  {
    hide *;
    GrownFacts(n, weight, parent, left, right, freq, rounds);
    CountsFacts(freq, n);
    if n == 1 {
      LoneRoot(parent, left, right, len);
      OneCheapest(len, freq, rounds);
    } else {
      GrownWeights(n, weight, parent, left, right, freq, rounds);
      TreeCheapest(n, 2 * n - 2, weight, parent, left, right, freq, rounds, len);
    }
  }

  lemma LoneRoot(parent: seq<int>, left: seq<int>, right: seq<int>, len: seq<int>)
    requires Forest(1, 1, parent, left, right) && Roots(parent, 1) == {1} && |len| == 1 && Measured(len, parent)
    ensures len[0] == 0
  {
    assert 1 in Roots(parent, 1);
  }

  lemma GrownWeights(n: int, weight: seq<int>, parent: seq<int>, left: seq<int>, right: seq<int>, freq: seq<int>,
                     rounds: nat)
    requires Grown(n, weight, parent, left, right, freq, rounds)
    ensures 2 * n - 1 < |weight| && Weighed(n, 2 * n - 1, weight, left, right)
    ensures Extracted(2 * n - 1, weight, parent) && InOrder(2 * n - 1, weight, parent) && n <= |freq|
    ensures forall x {:trigger weight[x]} :: 1 <= x <= 2 * n - 1 ==> weight[x] >= 0
    ensures forall i {:trigger freq[i]} :: 0 <= i < n ==> freq[i] >= 0 && W(weight[i + 1]) == Scaled(freq, i, rounds)
  {
    hide Scaled, Total, Forest, Weighed, Extracted, InOrder, Roots;
    forall i {:trigger freq[i]} | 0 <= i < n ensures freq[i] >= 0 && W(weight[i + 1]) == Scaled(freq, i, rounds) {
      assert weight[i + 1] == 256 * Scaled(freq, i, rounds);
    }
    hide W;
  }

  /** A lone symbol costs nothing. */
  lemma OneCheapest(len: seq<int>, freq: seq<int>, rounds: nat)
    requires |len| == 1 && |freq| >= 1 && freq[0] >= 0 && len[0] == 0
    ensures Cheapest(len, freq, rounds)
  {
    forall other: seq<int>, max: nat {:trigger Roomy(other, max)} | |other| == 1 && Roomy(other, max)
      ensures Spent(len, freq, rounds, 1) <= Spent(other, freq, rounds, 1)
    {
      assert Spent(other, freq, rounds, 1) == Spent(other, freq, rounds, 0) + Scaled(freq, 0, rounds) * other[0];
      assert Spent(len, freq, rounds, 1) == Spent(len, freq, rounds, 0) + Scaled(freq, 0, rounds) * len[0];
      assert other[0] >= 0;
      O.Lesser(Scaled(freq, 0, rounds), 0, other[0]);
    }
  }

  lemma UpperPart(x: int, y: int)
    requires x <= y
    ensures W(x) <= W(y) && W(0) == 0
  {
  }
  // ----- scaling -----------------------------------------------------------------------------------------------

  /** Halves every weight, rounding so that none becomes 0. */
  method Scale(weight: array<int>, alphaSize: int, ghost freq: seq<int>, ghost rounds: nat)
    requires Leaves(weight[..], freq, alphaSize, rounds)
    requires forall x {:trigger weight[x]} :: 0 <= x < weight.Length ==> 0 <= weight[x]
    modifies weight
    ensures Leaves(weight[..], freq, alphaSize, rounds + 1)
    ensures forall x {:trigger weight[x]} :: 0 <= x < weight.Length ==> 0 <= weight[x]
  {
    ghost var w := weight[..];
    var i := 1;
    while i <= alphaSize
      invariant 1 <= i <= alphaSize + 1
      invariant forall x {:trigger weight[x]} :: i <= x < weight.Length ==> weight[x] == w[x]
      invariant forall x {:trigger weight[x]} :: 1 <= x < i ==> weight[x] == 256 * Scaled(freq, x - 1, rounds + 1)
      invariant forall x {:trigger weight[x]} :: 0 <= x < weight.Length ==> 0 <= weight[x]
    {
      assert w[i] == 256 * Scaled(freq, i - 1, rounds);
      assert Scaled(freq, i - 1, rounds + 1) == 1 + Scaled(freq, i - 1, rounds) / 2;
      hide Scaled;
      var j := W(weight[i]);
      j := 1 + j / 2;
      weight[i] := 256 * j;
      i := i + 1;
    }
  }

  /** Scaling never raises the total, and keeps it only when every frequency is 1 or 2. */
  lemma {:induction false} TotalShrinks(freq: seq<int>, n: int, rounds: nat)
    requires 0 <= n <= |freq| && forall i {:trigger freq[i]} :: 0 <= i < n ==> freq[i] >= 0
    ensures Total(freq, n, rounds + 1) <= Total(freq, n, rounds)
    ensures Total(freq, n, rounds + 1) == Total(freq, n, rounds) ==> Total(freq, n, rounds) <= 2 * n
    decreases n
  {
    if n > 0 {
      TotalShrinks(freq, n - 1, rounds);
      assert Scaled(freq, n - 1, rounds + 1) == 1 + Scaled(freq, n - 1, rounds) / 2;
      hide Scaled;
    }
  }

  lemma TopIsHeavy(n: int, weight: seq<int>, parent: seq<int>, left: seq<int>, right: seq<int>, freq: seq<int>,
                   rounds: nat, x: int)
    requires Grown(n, weight, parent, left, right, freq, rounds) && 1 <= x <= n && Depth(parent, x) > 12
    ensures Total(freq, n, rounds) >= Fib(Depth(parent, x) + 2) && Total(freq, n, rounds) >= 610 && Counts(freq, n)
  {
    hide Forest, Extracted, InOrder, Sized, Scaled, Total;
    var N := 2 * n - 1;
    DepthHeight(n, N, weight, parent, left, right, x);
    HeightAtLeast(N, weight, Total(freq, n, rounds), Depth(parent, x)) by {
      assert D(weight[x]) >= 0;
    }
  }

  lemma HeightAtLeast(N: int, weight: seq<int>, total: int, h: int)
    requires Sized(N, weight, total) && 12 < h <= D(weight[N])
    ensures total >= Fib(h + 2) && total >= 610
  {
    FibGrows(h + 2, D(weight[N]) + 2);
    FibValues();
    FibGrows(15, D(weight[N]) + 2);
  }

  /** A code deeper than 12 needs a total that scaling still reduces. */
  lemma DeepIsHeavy(n: int, weight: seq<int>, parent: seq<int>, left: seq<int>, right: seq<int>, freq: seq<int>,
                    rounds: nat, x: int)
    requires Grown(n, weight, parent, left, right, freq, rounds) && 1 <= x <= n && Depth(parent, x) > 12
    ensures Counts(freq, n) && Total(freq, n, rounds + 1) < Total(freq, n, rounds)
    ensures Total(freq, n, rounds) >= Fib(Depth(parent, x) + 2)
  {
    hide Grown, Total, Depth, Fib;
    TopIsHeavy(n, weight, parent, left, right, freq, rounds, x);
    TotalShrinks(freq, n, rounds);
  }

  method InitWeights(weight: array<int>, freq: array<int>, alphaSize: int)
    requires weight != freq && weight.Length == 2 * MAX_ALPHA_SIZE && Counts(freq[..], alphaSize)
    requires forall x {:trigger weight[x]} :: 0 <= x < weight.Length ==> 0 <= weight[x]
    modifies weight
    ensures Leaves(weight[..], freq[..], alphaSize, 0)
    ensures forall x {:trigger weight[x]} :: 0 <= x < weight.Length ==> 0 <= weight[x]
  {
    ghost var f := freq[..];
    var i := 0;
    while i < alphaSize
      invariant 0 <= i <= alphaSize
      invariant forall x {:trigger weight[x]} :: 1 <= x <= i ==> weight[x] == 256 * Scaled(f, x - 1, 0)
      invariant forall x {:trigger weight[x]} :: 0 <= x < weight.Length ==> 0 <= weight[x]
    {
      assert freq[i] == f[i];
      weight[i + 1] := 256 * (if freq[i] == 0 then 1 else freq[i]);
      i := i + 1;
    }
  }

  lemma GrownFacts(n: int, weight: seq<int>, parent: seq<int>, left: seq<int>, right: seq<int>, freq: seq<int>,
                   rounds: nat)
    requires Grown(n, weight, parent, left, right, freq, rounds)
    ensures Forest(n, 2 * n - 1, parent, left, right) && Roots(parent, 2 * n - 1) == {2 * n - 1}
    ensures Leaves(weight, freq, n, rounds) && Counts(freq, n) && |weight| == 2 * MAX_ALPHA_SIZE
  {
  }

  lemma CountsFacts(freq: seq<int>, n: int)
    requires Counts(freq, n)
    ensures 1 <= n <= |freq| && n <= MAX_ALPHA_SIZE && MAX_ALPHA_SIZE == 258
    ensures forall i {:trigger freq[i]} :: 0 <= i < n ==> freq[i] >= 0
  {
  }

  /** One pass: build the tree, read off its depths, and scale the weights when one is over maxLen. */
  method OnePass(heap: array<int>, weight: array<int>, parent: array<int>, len: array<int>, alphaSize: int, maxLen: int,
                 ghost freq: seq<int>, ghost rounds: nat) returns (tooLong: bool)
    requires heap != weight && heap != parent && weight != parent && len != heap && len != weight && len != parent
    requires parent.Length == weight.Length == 2 * MAX_ALPHA_SIZE && heap.Length == MAX_ALPHA_SIZE + 2
    requires alphaSize <= len.Length && maxLen >= 12
    requires forall x {:trigger weight[x]} :: 0 <= x < weight.Length ==> 0 <= weight[x]
    requires Leaves(weight[..], freq, alphaSize, rounds) && Total(freq, alphaSize, rounds) < TOTAL_LIMIT
    modifies heap, weight, parent, len
    ensures len[alphaSize..] == old(len[alphaSize..])
    ensures forall x {:trigger weight[x]} :: 0 <= x < weight.Length ==> 0 <= weight[x]
    ensures !tooLong ==> Complete(len[..alphaSize], maxLen) && RarerNoShorter(len[..alphaSize], freq, rounds)
    ensures !tooLong ==> Cheapest(len[..alphaSize], freq, rounds)
    ensures tooLong ==> Total(freq, alphaSize, rounds) >= Fib(maxLen + 3)
    ensures tooLong ==> Leaves(weight[..], freq, alphaSize, rounds + 1)
    ensures tooLong ==> 0 <= Total(freq, alphaSize, rounds + 1) < Total(freq, alphaSize, rounds)
  {
    hide *;
    LeavesFacts(weight[..], freq, alphaSize, rounds);
    ghost var left, right := BuildTree(heap, weight, parent, alphaSize, freq, rounds);
    ghost var w, p, N := weight[..], parent[..], 2 * alphaSize - 1;
    GrownFacts(alphaSize, w, p, left, right, freq, rounds);
    tooLong := MeasureDepths(len, parent, alphaSize, maxLen, N, left, right);
    if !tooLong {
      DepthsComplete(alphaSize, N, p, left, right, len[..alphaSize], maxLen);
      DepthsOrdered(alphaSize, w, p, left, right, freq, rounds, len[..alphaSize]);
      DepthsCheapest(alphaSize, w, p, left, right, freq, rounds, len[..alphaSize]);
    } else {
      ghost var i :| 1 <= i <= alphaSize && Depth(p, i) > maxLen;
      DeepIsHeavy(alphaSize, w, p, left, right, freq, rounds, i);
      FibGrows(maxLen + 3, Depth(p, i) + 2);
      TotalNonNegative(freq, alphaSize, rounds + 1);
      Scale(weight, alphaSize, freq, rounds);
    }
  }

  lemma LeavesFacts(weight: seq<int>, freq: seq<int>, n: int, rounds: nat)
    requires Leaves(weight, freq, n, rounds)
    ensures Counts(freq, n) && 1 <= n <= |freq| && n <= MAX_ALPHA_SIZE
    ensures forall i {:trigger freq[i]} :: 0 <= i < n ==> freq[i] >= 0
  {
  }

  /** The lengths bzip2 gives to an alphabet with these frequencies, none over maxLen. */
  method MakeCodeLengths(len: array<int>, freq: array<int>, alphaSize: int, maxLen: int) returns (ghost rounds: nat)
    requires len != freq && alphaSize <= len.Length && Counts(freq[..], alphaSize) && maxLen >= 12
    requires Total(freq[..], alphaSize, 0) < TOTAL_LIMIT
    modifies len
    ensures Complete(len[..alphaSize], maxLen)
    ensures RarerNoShorter(len[..alphaSize], freq[..], rounds)
    ensures Cheapest(len[..alphaSize], freq[..], rounds)
    ensures rounds > 0 ==> Total(freq[..], alphaSize, rounds - 1) >= Fib(maxLen + 3)
    ensures len[alphaSize..] == old(len[alphaSize..])
  {
    var heap := new int[MAX_ALPHA_SIZE + 2];
    var weight := new int[2 * MAX_ALPHA_SIZE](_ => 0);
    var parent := new int[2 * MAX_ALPHA_SIZE];
    ghost var f, rest := freq[..], len[alphaSize..];
    InitWeights(weight, freq, alphaSize);
    CountsFacts(f, alphaSize);
    rounds := 0;
    TotalNonNegative(f, alphaSize, rounds);
    hide Leaves, Total, Counts, Complete, RarerNoShorter, Cheapest, Fib;
    while true
      invariant Leaves(weight[..], f, alphaSize, rounds) && 0 <= Total(f, alphaSize, rounds) < TOTAL_LIMIT
        && freq[..] == f
      invariant forall x {:trigger weight[x]} :: 0 <= x < weight.Length ==> 0 <= weight[x]
      invariant len[alphaSize..] == rest
      invariant rounds > 0 ==> Total(f, alphaSize, rounds - 1) >= Fib(maxLen + 3)
      decreases Total(f, alphaSize, rounds)
    {
      var tooLong := OnePass(heap, weight, parent, len, alphaSize, maxLen, f, rounds);
      if !tooLong { break; }
      rounds := rounds + 1;
    }
  }
}
