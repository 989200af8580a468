/**
 The heap of deflate's tree builder (dep/zlib/trees.c:412-459): entries 1..n hold node numbers, the lightest first, by
 frequency and, when that is equal, by the height of the subtree.
 */
module FlateHeap {
  import opened HuffmanHeap
  import opened Permutations

  /** The order of smaller(), as one number: heights are bytes. */
  ghost function Weights(freq: seq<int>, depth: seq<int>, count: int): (w: seq<int>)
    requires 0 <= count <= |freq| && count <= |depth|
    ensures |w| == count && forall x {:trigger w[x]} :: 0 <= x < count ==> w[x] == 256 * freq[x] + depth[x]
  {
    seq(count, x requires 0 <= x < count => 256 * freq[x] + depth[x])
  }

  /** Frequencies are not negative and heights are bytes. */
  ghost predicate Weighty(freq: seq<int>, depth: seq<int>, count: int) {
    && 0 <= count <= |freq| && count <= |depth|
    && forall x {:trigger freq[x]} {:trigger depth[x]} :: 0 <= x < count ==> 0 <= freq[x] && 0 <= depth[x] < 256
  }

  /** Ordered below each entry from lo on, but for entry z, which may be too heavy for its place. */
  ghost predicate OrderedButAt(heap: seq<int>, weight: seq<int>, n: int, lo: int, z: int) {
    && Fits(heap, weight, n) && 1 <= lo <= z
    && (forall i {:trigger Up(i)} :: 2 <= i <= n && lo <= Up(i) != z ==> weight[heap[Up(i)]] <= weight[heap[i]])
    && (lo <= Up(z) ==> forall i {:trigger Up(i)} :: 2 <= i <= n && Up(i) == z ==>
         weight[heap[Up(z)]] <= weight[heap[i]])
  }

  ghost predicate OrderedFrom(heap: seq<int>, weight: seq<int>, n: int, lo: int) {
    Fits(heap, weight, n) && 1 <= lo && forall i {:trigger Up(i)} ::
      2 <= i <= n && lo <= Up(i) ==> weight[heap[Up(i)]] <= weight[heap[i]]
  }

  lemma ButAtFits(heap: seq<int>, weight: seq<int>, n: int, lo: int, z: int)
    requires OrderedButAt(heap, weight, n, lo, z)
    ensures Fits(heap, weight, n) && 1 <= lo <= z && 0 <= n < |heap|
  {
  }

  /** One more entry is taken in hand. */
  lemma OneLower(heap: seq<int>, weight: seq<int>, n: int, lo: int)
    requires OrderedFrom(heap, weight, n, lo) && lo > 1
    ensures OrderedButAt(heap, weight, n, lo - 1, lo - 1)
  {
  }

  lemma Sinks(heap: seq<int>, weight: seq<int>, n: int, lo: int, z: int, y: int) returns (after: seq<int>)
    requires OrderedButAt(heap, weight, n, lo, z) && 2 * z <= y <= 2 * z + 1 && y <= n
    requires weight[heap[y]] <= weight[heap[2 * z]] && (2 * z + 1 <= n ==> weight[heap[y]] <= weight[heap[2 * z + 1]])
    requires weight[heap[y]] <= weight[heap[z]]
    ensures after == heap[z := heap[y]][y := heap[z]] && OrderedButAt(after, weight, n, lo, y)
      && Shuffled(heap, after, 1, n + 1)
  {
    after := heap[z := heap[y]][y := heap[z]];
    SwapKeepsFits(heap, weight, n, z, y);
    assert Up(y) == z;
    forall i {:trigger Up(i)} | 2 <= i <= n && lo <= Up(i) != y ensures weight[after[Up(i)]] <= weight[after[i]] {
      if Up(i) == z {
        assert i == 2 * z || i == 2 * z + 1;
      } else if i == z {
        assert weight[heap[Up(z)]] <= weight[heap[y]];
      } else {
        assert weight[heap[Up(i)]] <= weight[heap[i]];
      }
    }
    forall i {:trigger Up(i)} | 2 <= i <= n && Up(i) == y ensures weight[after[Up(y)]] <= weight[after[i]] {
      assert weight[heap[Up(i)]] <= weight[heap[i]];
    }
  }

  lemma SinkStops(heap: seq<int>, weight: seq<int>, n: int, lo: int, z: int, y: int)
    requires OrderedButAt(heap, weight, n, lo, z)
    requires n < 2 * z || (2 * z <= y <= n && weight[heap[z]] <= weight[heap[y]] <= weight[heap[2 * z]])
    requires 2 * z + 1 <= n ==> 0 <= y < |heap| && 0 <= heap[y] < |weight| && weight[heap[y]] <= weight[heap[2 * z + 1]]
    ensures OrderedFrom(heap, weight, n, lo)
  {
    forall i {:trigger Up(i)} | 2 <= i <= n && lo <= Up(i) ensures weight[heap[Up(i)]] <= weight[heap[i]] {
      if Up(i) == z { assert i == 2 * z || i == 2 * z + 1; }
    }
  }

  lemma WholeHeap(heap: seq<int>, weight: seq<int>, n: int)
    requires OrderedFrom(heap, weight, n, 1)
    ensures Ordered(heap, weight, n)
  {
  }

  /** Leaves alone are in order. */
  lemma LeavesOrdered(heap: seq<int>, weight: seq<int>, n: int)
    requires Fits(heap, weight, n)
    ensures OrderedFrom(heap, weight, n, n / 2 + 1)
  {
  }

  /** A new node at the root. */
  lemma NewRoot(heap: seq<int>, weight: seq<int>, n: int, x: int)
    requires Ordered(heap, weight, n) && n >= 1 && 0 <= x < |weight|
    ensures OrderedButAt(heap[1 := x], weight, n, 1, 1)
    ensures Contents(heap[1 := x], n) == Contents(heap, n) - multiset{heap[1]} + multiset{x}
      && heap[1] in Contents(heap, n)
  {
    assert heap[1..n + 1] == [heap[1]] + heap[2..n + 1];
    assert heap[1 := x][1..n + 1] == [x] + heap[2..n + 1];
  }

  lemma LastAtRoot(heap: seq<int>, weight: seq<int>, n: int)
    requires Ordered(heap, weight, n) && n >= 1
    ensures OrderedButAt(heap[1 := heap[n]], weight, n - 1, 1, 1)
    ensures Contents(heap[1 := heap[n]], n - 1) == Contents(heap, n) - multiset{heap[1]} && heap[1] in Contents(heap, n)
  {
    LastToFront(heap, weight, n);
  }
}
