/**
 The implicit binary heap of node numbers that bzip2 keeps while building a Huffman tree: entry 0 is a
 sentinel of weight 0, entries 1..n hold the heap (dep/bzip2/huffman.c:33-59).
 */
module HuffmanHeap {
  import opened Permutations

  function Up(i: int): int { i / 2 }

  /** Entries 1..n name nodes, and weights are not negative. */
  ghost predicate Fits(heap: seq<int>, weight: seq<int>, n: int) {
    && 0 <= n < |heap|
    && (forall i {:trigger heap[i]} :: 1 <= i <= n ==> 0 <= heap[i] < |weight|)
    && (forall x {:trigger weight[x]} :: 0 <= x < |weight| ==> 0 <= weight[x])
  }

  ghost predicate Ordered(heap: seq<int>, weight: seq<int>, n: int) {
    && Fits(heap, weight, n)
    && forall i {:trigger Up(i)} :: 2 <= i <= n ==> weight[heap[Up(i)]] <= weight[heap[i]]
  }

  /** Ordered but for entry z, which may be too light for its place. */
  ghost predicate OrderedAbove(heap: seq<int>, weight: seq<int>, n: int, z: int) {
    && Fits(heap, weight, n) && 1 <= z <= n
    && (forall i {:trigger Up(i)} :: 2 <= i <= n && i != z ==> weight[heap[Up(i)]] <= weight[heap[i]])
    && (z > 1 ==> forall i {:trigger Up(i)} :: 2 <= i <= n && Up(i) == z ==> weight[heap[z / 2]] <= weight[heap[i]])
  }

  /** Ordered but for entry z, which may be too heavy for its place. */
  ghost predicate OrderedBelow(heap: seq<int>, weight: seq<int>, n: int, z: int) {
    && Fits(heap, weight, n) && 1 <= z
    && (forall i {:trigger Up(i)} :: 2 <= i <= n && Up(i) != z ==> weight[heap[Up(i)]] <= weight[heap[i]])
    && (z > 1 ==> forall i {:trigger Up(i)} :: 2 <= i <= n && Up(i) == z ==> weight[heap[z / 2]] <= weight[heap[i]])
  }

  /** The nodes held in entries 1..n. */
  ghost function Contents(heap: seq<int>, n: int): multiset<int>
    requires 0 <= n < |heap|
  {
    multiset(heap[1..n + 1])
  }

  lemma {:induction false} RootIsLeast(heap: seq<int>, weight: seq<int>, n: int, i: int)
    requires Ordered(heap, weight, n) && 1 <= i <= n
    ensures weight[heap[1]] <= weight[heap[i]]
    decreases i
  {
    if i > 1 {
      assert weight[heap[Up(i)]] <= weight[heap[i]];
      RootIsLeast(heap, weight, n, i / 2);
    }
  }

  lemma SwapKeepsFits(heap: seq<int>, weight: seq<int>, n: int, z: int, p: int)
    requires Fits(heap, weight, n) && 1 <= p <= n && 1 <= z <= n
    ensures Fits(heap[z := heap[p]][p := heap[z]], weight, n)
    ensures Shuffled(heap, heap[z := heap[p]][p := heap[z]], 1, n + 1)
  {
    ShuffledSwap(heap, z, p, 1, n + 1);
  }

  lemma RiseStep(heap: seq<int>, weight: seq<int>, n: int, z: int) returns (after: seq<int>)
    requires OrderedAbove(heap, weight, n, z) && z > 1 && weight[heap[z]] < weight[heap[Up(z)]]
    ensures after == heap[z := heap[Up(z)]][Up(z) := heap[z]]
    ensures OrderedAbove(after, weight, n, Up(z)) && Fits(after, weight, n)
    ensures Shuffled(heap, after, 1, n + 1)
  {
    var p := Up(z);
    after := heap[z := heap[p]][p := heap[z]];
    SwapKeepsFits(heap, weight, n, z, p);
    assert Up(p) == Up(p) && Up(z) == p;
    forall i {:trigger Up(i)} | 2 <= i <= n && i != p ensures weight[after[Up(i)]] <= weight[after[i]] {
    }
    if p > 1 {
      forall i {:trigger Up(i)} | 2 <= i <= n && Up(i) == p ensures weight[after[Up(p)]] <= weight[after[i]] {
        assert weight[heap[Up(p)]] <= weight[heap[p]];
        assert i != z ==> weight[heap[Up(i)]] <= weight[heap[i]];
      }
    }
  }

  lemma RiseEnds(heap: seq<int>, weight: seq<int>, n: int, z: int)
    requires OrderedAbove(heap, weight, n, z) && (z == 1 || weight[heap[Up(z)]] <= weight[heap[z]])
    ensures Ordered(heap, weight, n)
  {
  }

  /** h is the heap with its hole, entry z, filled by tmp. */
  ghost predicate Hole(heap: seq<int>, h: seq<int>, z: int, tmp: int) {
    0 <= z < |heap| && h == heap[z := tmp]
  }

  lemma HoleFilled(heap: seq<int>, h: seq<int>, z: int, tmp: int)
    requires Hole(heap, h, z, tmp)
    ensures |h| == |heap| && h == heap[z := tmp]
  {
  }

  lemma NoHole(heap: seq<int>, z: int)
    requires 0 <= z < |heap|
    ensures Hole(heap, heap, z, heap[z])
  {
  }

  /** Moving entry y into the hole at z, and the hole to y, is a swap once the hole is filled. */
  lemma HoleMoves(heap: seq<int>, h: seq<int>, next: seq<int>, z: int, y: int, tmp: int)
    requires 0 <= y < |heap| && y != z && Hole(heap, h, z, tmp) && next == h[z := h[y]][y := h[z]]
    ensures Hole(heap[z := heap[y]], next, y, tmp)
  {
  }

  lemma AboveFits(heap: seq<int>, weight: seq<int>, n: int, z: int)
    requires OrderedAbove(heap, weight, n, z)
    ensures Fits(heap, weight, n) && 1 <= z <= n
  {
  }

  /** The state while tmp rises: the hole is at z, and filling it gives a rearrangement ordered but at z. */
  ghost predicate Rising(start: seq<int>, heap: seq<int>, h: seq<int>, weight: seq<int>, n: int, z: int, tmp: int) {
    && OrderedAbove(h, weight, n, z) && Hole(heap, h, z, tmp)
    && Shuffled(start, h, 1, n + 1)
    && heap[0] == 0 && |weight| > 0 && weight[0] == 0
  }

  lemma RisingBounds(start: seq<int>, heap: seq<int>, h: seq<int>, weight: seq<int>, n: int, z: int, tmp: int)
    requires Rising(start, heap, h, weight, n, z, tmp)
    ensures 1 <= z < |heap| && 0 <= tmp < |weight|
    ensures 0 <= Up(z) < z && 0 <= heap[Up(z)] < |weight|
  {
    AboveFits(h, weight, n, z);
    assert Up(z) == z / 2;
    assert heap[Up(z)] == h[Up(z)];
    if Up(z) > 0 { assert 0 <= h[Up(z)] < |weight|; }
    assert h[z] == tmp;
  }

  lemma RiseFacts(start: seq<int>, heap: seq<int>, h: seq<int>, weight: seq<int>, n: int, z: int, tmp: int)
    requires Rising(start, heap, h, weight, n, z, tmp)
    requires 0 <= tmp < |weight| && 0 <= Up(z) < z < |heap| && 0 <= heap[Up(z)] < |weight|
      && weight[tmp] < weight[heap[Up(z)]]
    ensures OrderedAbove(h, weight, n, z) && 1 < z <= n < |h| == |heap| && h[z] == tmp && h[Up(z)] == heap[Up(z)]
    ensures Hole(heap, h, z, tmp) && Shuffled(start, h, 1, n + 1) && heap[0] == 0 && weight[0] == 0
  {
    AboveFits(h, weight, n, z);
    assert h[z] == tmp && h[Up(z)] == heap[Up(z)];
  }

  lemma RiseOn(start: seq<int>, heap: seq<int>, h: seq<int>, weight: seq<int>, n: int, z: int, tmp: int)
    returns (next: seq<int>)
    requires Rising(start, heap, h, weight, n, z, tmp)
    requires 0 <= tmp < |weight| && 0 <= Up(z) < z < |heap| && 0 <= heap[Up(z)] < |weight|
      && weight[tmp] < weight[heap[Up(z)]]
    ensures Rising(start, heap[z := heap[Up(z)]], next, weight, n, Up(z), tmp)
  {
    hide *;
    RiseFacts(start, heap, h, weight, n, z, tmp);
    var y := Up(z);
    next := RiseStep(h, weight, n, z);
    ShuffledTransitive(start, h, next, 1, n + 1);
    HoleMoves(heap, h, next, z, y, tmp);
    RisingAgain(start, heap[z := heap[y]], next, weight, n, y, tmp);
  }

  lemma RisingAgain(start: seq<int>, heap: seq<int>, h: seq<int>, weight: seq<int>, n: int, z: int, tmp: int)
    requires OrderedAbove(h, weight, n, z) && Hole(heap, h, z, tmp) && Shuffled(start, h, 1, n + 1)
    requires |heap| > 0 && heap[0] == 0 && |weight| > 0 && weight[0] == 0
    ensures Rising(start, heap, h, weight, n, z, tmp)
  {
  }

  lemma RiseStops(start: seq<int>, heap: seq<int>, h: seq<int>, weight: seq<int>, n: int, z: int, tmp: int)
    requires Rising(start, heap, h, weight, n, z, tmp)
    requires 0 <= tmp < |weight| && 0 <= Up(z) < z < |heap| && 0 <= heap[Up(z)] < |weight|
      && weight[tmp] >= weight[heap[Up(z)]]
    ensures h == heap[z := tmp] && Ordered(h, weight, n) && Shuffled(start, h, 1, n + 1)
  {
    assert h[z] == tmp && h[Up(z)] == heap[Up(z)];
    RiseEnds(h, weight, n, z);
  }

  /** Moves entry z up to its place. */
  method UpHeap(heap: array<int>, weight: array<int>, z: int, ghost n: int)
    requires heap != weight
    requires OrderedAbove(heap[..], weight[..], n, z)
    requires heap[0] == 0 && weight.Length > 0 && weight[0] == 0
    modifies heap
    ensures Ordered(heap[..], weight[..], n)
    ensures Shuffled(old(heap[..]), heap[..], 1, n + 1)
  {
    AboveFits(heap[..], weight[..], n, z);
    ShuffledReflexive(heap[..], 1, n + 1);
    var zz := z;
    var tmp := heap[zz];
    ghost var h := heap[..];
    ghost var w, start := weight[..], heap[..];
    assert Rising(start, h, h, w, n, z, tmp);
    hide *;
    RisingBounds(start, h, h, w, n, z, tmp);
    while weight[tmp] < weight[heap[Up(zz)]]
      invariant w == weight[..] && Rising(start, heap[..], h, w, n, zz, tmp)
      invariant 1 <= zz < heap.Length && 0 <= tmp < weight.Length
      invariant 0 <= Up(zz) < zz && 0 <= heap[Up(zz)] < weight.Length
      decreases zz
    {
      ghost var before := heap[..];
      h := RiseOn(start, before, h, w, n, zz, tmp);
      heap[zz] := heap[Up(zz)];
      assert heap[..] == before[zz := before[Up(zz)]];
      zz := Up(zz);
      RisingBounds(start, heap[..], h, w, n, zz, tmp);
    }
    RiseStops(start, heap[..], h, w, n, zz, tmp);
    heap[zz] := tmp;
    assert heap[..] == h;
  }

  lemma SinkStep(heap: seq<int>, weight: seq<int>, n: int, z: int, y: int) returns (after: seq<int>)
    requires OrderedBelow(heap, weight, n, z)
    requires 2 * z <= y <= 2 * z + 1 && y <= n
    requires 2 * z + 1 <= n ==> weight[heap[y]] <= weight[heap[2 * z]] && weight[heap[y]] <= weight[heap[2 * z + 1]]
    requires weight[heap[y]] <= weight[heap[z]]
    ensures after == heap[z := heap[y]][y := heap[z]]
    ensures OrderedBelow(after, weight, n, y) && Fits(after, weight, n)
    ensures Shuffled(heap, after, 1, n + 1)
  {
    after := heap[z := heap[y]][y := heap[z]];
    SwapKeepsFits(heap, weight, n, z, y);
    assert Up(y) == z == y / 2;
    forall i {:trigger Up(i)} | 2 <= i <= n && Up(i) != y ensures weight[after[Up(i)]] <= weight[after[i]] {
      if Up(i) == z {
        assert i == 2 * z || i == 2 * z + 1;
      } else if i == z {
        assert weight[heap[z / 2]] <= weight[heap[y]];
      } else {
        assert weight[heap[Up(i)]] <= weight[heap[i]];
      }
    }
    forall i {:trigger Up(i)} | 2 <= i <= n && Up(i) == y ensures weight[after[y / 2]] <= weight[after[i]] {
      assert weight[heap[Up(i)]] <= weight[heap[i]];
    }
  }

  lemma SinkEnds(heap: seq<int>, weight: seq<int>, n: int, z: int, y: int)
    requires OrderedBelow(heap, weight, n, z)
    requires n < 2 * z || (2 * z <= y <= 2 * z + 1 && y <= n && weight[heap[z]] <= weight[heap[y]])
    requires n >= 2 * z + 1 ==> weight[heap[y]] <= weight[heap[2 * z]] && weight[heap[y]] <= weight[heap[2 * z + 1]]
    requires 1 <= z <= n || n < 2
    ensures Ordered(heap, weight, n)
  {
    forall i {:trigger Up(i)} | 2 <= i <= n ensures weight[heap[Up(i)]] <= weight[heap[i]] {
      if Up(i) == z {
        assert i == 2 * z || i == 2 * z + 1;
      }
    }
  }

  /** The lighter of the one or two children of entry zz, the first of them when they weigh the same. */
  method LighterChild(heap: array<int>, weight: array<int>, zz: int, nHeap: int, ghost h: seq<int>, ghost tmp: int)
    returns (yy: int)
    requires Fits(h, weight[..], nHeap) && 1 <= zz && Hole(heap[..], h, zz, tmp) && 2 * zz <= nHeap
    ensures 2 * zz <= yy <= 2 * zz + 1 && yy <= nHeap < |h| == heap.Length
    ensures heap[yy] == h[yy] && 0 <= h[yy] < weight.Length && h[zz] == tmp
    ensures 0 <= h[2 * zz] < weight.Length && weight[h[yy]] <= weight[h[2 * zz]]
    ensures 2 * zz + 1 <= nHeap ==> 0 <= h[2 * zz + 1] < weight.Length && weight[h[yy]] <= weight[h[2 * zz + 1]]
    ensures yy == 2 * zz + 1 ==> weight[h[yy]] < weight[h[2 * zz]]
  {
    yy := 2 * zz;
    assert heap[yy] == h[yy] && (yy < nHeap ==> heap[yy + 1] == h[yy + 1]);
    if yy < nHeap && weight[heap[yy + 1]] < weight[heap[yy]] { yy := yy + 1; }
  }

  /** Moves entry z down to its place. */
  method DownHeap(heap: array<int>, weight: array<int>, z: int, nHeap: int)
    requires heap != weight && z < heap.Length
    requires OrderedBelow(heap[..], weight[..], nHeap, z) && 0 <= heap[z] < weight.Length && (z <= nHeap || nHeap == 0)
    modifies heap
    ensures Ordered(heap[..], weight[..], nHeap)
    ensures Shuffled(old(heap[..]), heap[..], 1, nHeap + 1)
  {
    hide *;
    var zz := z;
    ghost var h := heap[..];
    ghost var w, start := weight[..], heap[..];
    BelowFits(h, w, nHeap, z);
    var tmp := heap[zz];
    ShuffledReflexive(h, 1, nHeap + 1);
    NoHole(h, z);
    while true
      invariant w == weight[..] && OrderedBelow(h, w, nHeap, zz) && Fits(h, w, nHeap)
      invariant 1 <= zz < heap.Length && (zz <= nHeap || nHeap == 0)
      invariant Hole(heap[..], h, zz, tmp) && 0 <= tmp < weight.Length
      invariant Shuffled(start, h, 1, nHeap + 1)
      decreases nHeap - zz
    {
      if 2 * zz > nHeap { SinkEnds(h, w, nHeap, zz, 0); break; }
      var yy := LighterChild(heap, weight, zz, nHeap, h, tmp);
      if weight[tmp] < weight[heap[yy]] { SinkEnds(h, w, nHeap, zz, yy); break; }
      ghost var before := heap[..];
      ghost var next := SinkStep(h, w, nHeap, zz, yy);
      ShuffledTransitive(start, h, next, 1, nHeap + 1);
      HoleMoves(before, h, next, zz, yy, tmp);
      heap[zz] := heap[yy];
      assert heap[..] == before[zz := before[yy]];
      zz := yy;
      h := next;
    }
    HoleFilled(heap[..], h, zz, tmp);
    heap[zz] := tmp;
    assert heap[..] == h;
  }

  lemma BelowFits(heap: seq<int>, weight: seq<int>, n: int, z: int)
    requires OrderedBelow(heap, weight, n, z)
    ensures Fits(heap, weight, n) && 1 <= z
  {
  }

  // ----- the two operations built from them ----------------------------------------------------------------

  lemma Appended(heap: seq<int>, weight: seq<int>, n: int, x: int)
    requires Ordered(heap, weight, n) && n + 1 < |heap| && 0 <= x < |weight|
    ensures OrderedAbove(heap[n + 1 := x], weight, n + 1, n + 1)
    ensures Contents(heap[n + 1 := x], n + 1) == Contents(heap, n) + multiset{x}
  {
    var after := heap[n + 1 := x];
    forall i {:trigger Up(i)} | 2 <= i <= n + 1 && i != n + 1 ensures weight[after[Up(i)]] <= weight[after[i]] {
      assert weight[heap[Up(i)]] <= weight[heap[i]];
    }
    assert after[1..n + 2] == heap[1..n + 1] + [x];
  }

  lemma SameContents(a: seq<int>, b: seq<int>, n: int)
    requires 0 <= n < |a| && Shuffled(a, b, 1, n + 1)
    ensures Contents(a, n) == Contents(b, n)
    ensures b[0] == a[0]
    ensures forall i {:trigger b[i]} :: n < i < |a| ==> b[i] == a[i]
  {
    ShuffledOutside(a, b, 1, n + 1);
  }

  /** The code's "nHeap++; heap[nHeap] = x; UPHEAP(nHeap)". */
  method Push(heap: array<int>, weight: array<int>, nHeap: int, x: int) returns (nHeap': int)
    requires heap != weight && weight.Length > 0 && weight[0] == 0
    requires Ordered(heap[..], weight[..], nHeap) && nHeap + 1 < heap.Length && heap[0] == 0
    requires 0 <= x < weight.Length
    modifies heap
    ensures nHeap' == nHeap + 1 && heap[0] == 0
    ensures Ordered(heap[..], weight[..], nHeap')
    ensures Contents(heap[..], nHeap') == old(Contents(heap[..], nHeap)) + multiset{x}
  {
    hide *;
    ghost var before := heap[..];
    Appended(before, weight[..], nHeap, x);
    nHeap' := nHeap + 1;
    heap[nHeap'] := x;
    assert heap[..] == before[nHeap + 1 := x];
    UpHeap(heap, weight, nHeap', nHeap');
    SameContents(before[nHeap + 1 := x], heap[..], nHeap');
  }

  lemma LastToFront(heap: seq<int>, weight: seq<int>, n: int)
    requires Ordered(heap, weight, n) && n >= 1
    ensures OrderedBelow(heap[1 := heap[n]], weight, n - 1, 1)
    ensures Contents(heap[1 := heap[n]], n - 1) == Contents(heap, n) - multiset{heap[1]}
    ensures heap[1] in Contents(heap, n)
  {
    var after := heap[1 := heap[n]];
    forall i {:trigger Up(i)} | 2 <= i <= n - 1 && Up(i) != 1 ensures weight[after[Up(i)]] <= weight[after[i]] {
      assert weight[heap[Up(i)]] <= weight[heap[i]];
    }
    assert heap[1..n + 1] == [heap[1]] + heap[2..n + 1];
    if n > 1 {
      assert heap[2..n + 1] == heap[2..n] + [heap[n]];
      assert after[1..n] == [heap[n]] + heap[2..n];
    } else {
      assert after[1..n] == [];
    }
  }

  /** x is one of the nodes, and none of them weighs less. */
  ghost predicate Least(weight: seq<int>, nodes: multiset<int>, x: int) {
    && x in nodes && 0 <= x < |weight|
    && forall y {:trigger weight[y]} {:trigger nodes[y]} :: y in nodes ==> 0 <= y < |weight| && weight[x] <= weight[y]
  }

  lemma LeastOfAll(heap: seq<int>, weight: seq<int>, n: int)
    requires Ordered(heap, weight, n) && n >= 1
    ensures Least(weight, Contents(heap, n), heap[1])
  {
    LastToFront(heap, weight, n);
    forall y | y in Contents(heap, n) ensures 0 <= y < |weight| && weight[heap[1]] <= weight[y] {
      var i :| 0 <= i < n && heap[1..n + 1][i] == y;
      assert heap[i + 1] == y;
      RootIsLeast(heap, weight, n, i + 1);
    }
  }

  /** The code's "x = heap[1]; heap[1] = heap[nHeap]; nHeap--; DOWNHEAP(1)". */
  method Pop(heap: array<int>, weight: array<int>, nHeap: int) returns (x: int, nHeap': int)
    requires heap != weight
    requires Ordered(heap[..], weight[..], nHeap) && nHeap >= 1 && heap[0] == 0
    modifies heap
    ensures nHeap' == nHeap - 1 && heap[0] == 0
    ensures Ordered(heap[..], weight[..], nHeap')
    ensures Contents(heap[..], nHeap') == old(Contents(heap[..], nHeap)) - multiset{x}
    ensures Least(weight[..], old(Contents(heap[..], nHeap)), x)
  {
    hide *;
    ghost var before := heap[..];
    LastToFront(before, weight[..], nHeap);
    LeastOfAll(before, weight[..], nHeap);
    EntryNamesNode(before, weight[..], nHeap);
    x := heap[1];
    heap[1] := heap[nHeap];
    nHeap' := nHeap - 1;
    assert heap[..] == before[1 := before[nHeap]];
    DownHeap(heap, weight, 1, nHeap');
    SameContents(before[1 := before[nHeap]], heap[..], nHeap');
  }

  lemma EntryNamesNode(heap: seq<int>, weight: seq<int>, n: int)
    requires Ordered(heap, weight, n) && n >= 1
    ensures 1 <= n < |heap| && 0 <= heap[1] < |weight| && 0 <= heap[n] < |weight|
  {
  }
}
