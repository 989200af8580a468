/**
 The forest that Huffman's algorithm grows in parent[] and weight[] (dep/bzip2/huffman.c:79-121): nodes
 1..n are the leaves, each later node joins two earlier ones. A weight holds the frequency in its upper bits
 and the height of the subtree in its low byte.
 */
module HuffmanTree {

  function W(z: int): int { z / 256 }
  function D(z: int): int { z % 256 }
  function Max(a: int, b: int): int { if a > b then a else b }

  /**
   ADDWEIGHTS: frequencies add up, heights take the larger plus one; the precondition keeps the "or" from carrying.
   */
  function AddWeights(a: int, b: int): (r: int)
    requires 0 <= a && 0 <= b && D(a) < 255 && D(b) < 255
    ensures r >= 0 && W(r) == W(a) + W(b) && D(r) == 1 + Max(D(a), D(b))
  {
    256 * (W(a) + W(b)) + (1 + Max(D(a), D(b)))
  }

  /** parent[] with its inverse: node t > n joins left[t] and right[t]. */
  ghost predicate Forest(n: int, N: int, parent: seq<int>, left: seq<int>, right: seq<int>) {
    && 1 <= n <= N < |parent| == |left| == |right|
    && (forall x {:trigger parent[x]} :: 1 <= x <= N && parent[x] >= 0 ==>
         n < parent[x] <= N && x < parent[x] && (x == left[parent[x]] || x == right[parent[x]]))
    && (forall t {:trigger left[t]} {:trigger right[t]} :: n < t <= N ==>
         1 <= left[t] < t && 1 <= right[t] < t && left[t] != right[t] && parent[left[t]] == t && parent[right[t]] == t)
  }

  // ----- sums over a frontier --------------------------------------------------------------------------------

  /** y is not joined, or joined only above t. */
  predicate Loose(parent: seq<int>, y: int, t: int)
    requires 0 <= y < |parent|
  {
    parent[y] < 0 || parent[y] > t
  }

  /** The sum of f over the nodes of 1..x that are loose above t. */
  ghost function Front(f: seq<int>, parent: seq<int>, t: int, x: int): int
    requires x < |f| == |parent|
    decreases x
  {
    if x <= 0 then 0 else Front(f, parent, t, x - 1) + if Loose(parent, x, t) then f[x] else 0
  }

  ghost function Sum(f: seq<int>, x: int): int
    requires x < |f|
    decreases x
  {
    if x <= 0 then 0 else Sum(f, x - 1) + f[x]
  }

  lemma {:induction false} FrontDrop(f: seq<int>, n: int, N: int, parent: seq<int>, left: seq<int>, right: seq<int>,
                                     t: int, x: int)
    requires Forest(n, N, parent, left, right) && |f| == |parent| && n < t <= N && 0 <= x < t
    ensures Front(f, parent, t - 1, x)
         == Front(f, parent, t, x) + (if left[t] <= x then f[left[t]] else 0) + (if right[t] <= x then f[right[t]]
           else 0)
    decreases x
  {
    if x > 0 {
      FrontDrop(f, n, N, parent, left, right, t, x - 1);
      assert parent[x] == t <==> x == left[t] || x == right[t];
    }
  }

  /** f of a joined node is the sum over the two it joins. */
  ghost predicate AddsUp(f: seq<int>, n: int, N: int, parent: seq<int>, left: seq<int>, right: seq<int>)
    requires Forest(n, N, parent, left, right)
  {
    && |f| == |parent|
    && forall u {:trigger left[u]} :: n < u <= N ==> f[u] == f[left[u]] + f[right[u]]
  }

  /** Splitting node t into its two children keeps the sum, if f(t) is the sum over them. */
  lemma {:induction false} FrontConstant(f: seq<int>, n: int, N: int, parent: seq<int>, left: seq<int>, right: seq<int>,
                                         t: int)
    requires Forest(n, N, parent, left, right) && n <= t <= N && AddsUp(f, n, N, parent, left, right)
    ensures Front(f, parent, t, t) == Front(f, parent, n, n)
    decreases t
  {
    if t > n {
      FrontConstant(f, n, N, parent, left, right, t - 1);
      FrontDrop(f, n, N, parent, left, right, t, t - 1);
      assert Loose(parent, t, t);
      assert f[t] == f[left[t]] + f[right[t]];
      hide Forest, AddsUp;
    }
  }

  lemma {:induction false} FrontLeaves(f: seq<int>, n: int, N: int, parent: seq<int>, left: seq<int>, right: seq<int>,
                                       x: int)
    requires Forest(n, N, parent, left, right) && |f| == |parent| && 0 <= x <= n
    ensures Front(f, parent, n, x) == Sum(f, x)
    decreases x
  {
    if x > 0 {
      FrontLeaves(f, n, N, parent, left, right, x - 1);
      assert parent[x] < 0 || parent[x] > n;
    }
  }

  lemma {:induction false} FrontNonNegative(f: seq<int>, parent: seq<int>, t: int, x: int)
    requires x < |f| == |parent| && forall y {:trigger f[y]} :: 1 <= y <= x ==> f[y] >= 0
    ensures Front(f, parent, t, x) >= 0
    decreases x
  {
    if x > 0 { FrontNonNegative(f, parent, t, x - 1); }
  }

  /** No loose node holds more than the whole frontier. */
  lemma {:induction false} RootWithin(f: seq<int>, parent: seq<int>, t: int, x: int, r: int)
    requires 1 <= r <= x < |f| == |parent| && Loose(parent, r, t)
    requires forall y {:trigger f[y]} :: 1 <= y <= x ==> f[y] >= 0
    ensures f[r] <= Front(f, parent, t, x)
    decreases x
  {
    if x == r {
      FrontNonNegative(f, parent, t, x - 1);
    } else {
      RootWithin(f, parent, t, x - 1, r);
    }
  }

  lemma {:induction false} FrontEmpty(f: seq<int>, parent: seq<int>, t: int, x: int)
    requires x < |f| == |parent| && forall y {:trigger Loose(parent, y, t)} :: 1 <= y <= x ==> !Loose(parent, y, t)
    ensures Front(f, parent, t, x) == 0
    decreases x
  {
    if x > 0 { FrontEmpty(f, parent, t, x - 1); }
  }

  // ----- the roots -------------------------------------------------------------------------------------------

  ghost function Roots(parent: seq<int>, N: int): set<int>
    requires N < |parent|
  {
    set x | 1 <= x <= N && parent[x] < 0
  }

  /** Over a whole tree, any f that adds up along the joins has at the root the sum over the leaves. */
  lemma RootHoldsLeaves(f: seq<int>, n: int, N: int, parent: seq<int>, left: seq<int>, right: seq<int>)
    requires Forest(n, N, parent, left, right) && AddsUp(f, n, N, parent, left, right)
    requires Roots(parent, N) == {N}
    ensures f[N] == Sum(f, n)
  {
    hide Forest, AddsUp;
    ForestBounds(n, N, parent, left, right);
    assert |f| == |parent| by { AddsUpBounds(f, n, N, parent, left, right); }
    FrontConstant(f, n, N, parent, left, right, N);
    FrontLeaves(f, n, N, parent, left, right, n);
    forall y {:trigger Loose(parent, y, N)} | 1 <= y <= N - 1 ensures !Loose(parent, y, N) {
      assert y !in Roots(parent, N);
      NotAbove(n, N, parent, left, right, y);
    }
    FrontEmpty(f, parent, N, N - 1);
    assert N in Roots(parent, N);
  }

  lemma ForestBounds(n: int, N: int, parent: seq<int>, left: seq<int>, right: seq<int>)
    requires Forest(n, N, parent, left, right)
    ensures 1 <= n <= N < |parent| == |left| == |right|
  {
  }

  lemma AddsUpBounds(f: seq<int>, n: int, N: int, parent: seq<int>, left: seq<int>, right: seq<int>)
    requires Forest(n, N, parent, left, right) && AddsUp(f, n, N, parent, left, right)
    ensures |f| == |parent|
  {
  }

  lemma NotAbove(n: int, N: int, parent: seq<int>, left: seq<int>, right: seq<int>, y: int)
    requires Forest(n, N, parent, left, right) && 1 <= y <= N
    ensures parent[y] <= N
  {
  }

  // ----- weights ---------------------------------------------------------------------------------------------

  ghost function Frequencies(weight: seq<int>): (f: seq<int>)
    ensures |f| == |weight|
  {
    seq(|weight|, i requires 0 <= i < |weight| => W(weight[i]))
  }

  function Fib(n: nat): (r: nat)
  {
    if n < 2 then n else Fib(n - 1) + Fib(n - 2)
  }

  lemma {:induction false} FibGrows(m: nat, n: nat)
    requires m <= n
    ensures Fib(m) <= Fib(n)
    decreases n
  {
    if m < n {
      FibGrows(m, n - 1);
      if n == 1 { assert Fib(0) == 0; }
    }
  }

  /** Leaves have height 0 and a positive frequency, and joined nodes add up. */
  ghost predicate Weighed(n: int, N: int, weight: seq<int>, left: seq<int>, right: seq<int>) {
    && 1 <= n <= N < |weight| == |left| == |right|
    && (forall i {:trigger weight[i]} :: 1 <= i <= n ==> D(weight[i]) == 0 && W(weight[i]) >= 1)
    && (forall t {:trigger left[t]} :: n < t <= N ==> 1 <= left[t] < t && 1 <= right[t] < t)
    && (forall t {:trigger left[t]} :: n < t <= N ==> W(weight[t]) == W(weight[left[t]]) + W(weight[right[t]]))
    && (forall t {:trigger left[t]} :: n < t <= N ==> D(weight[t]) == 1 + Max(D(weight[left[t]]), D(weight[right[t]])))
  }

  /** A node of height h weighs at least the Fibonacci number h + 2, and none more than all leaves together. */
  ghost predicate Sized(N: int, weight: seq<int>, total: int) {
    && 1 <= N < |weight|
    && forall x {:trigger weight[x]} :: 1 <= x <= N ==> 0 <= weight[x] && Fib(D(weight[x]) + 2) <= W(weight[x]) <= total
  }

  /** What has been joined weighs no more than what has not. */
  ghost predicate Extracted(N: int, weight: seq<int>, parent: seq<int>) {
    && N < |weight| == |parent|
    && forall x, y {:trigger weight[x], weight[y]} :: 1 <= x <= N && 1 <= y <= N && parent[x] < 0 && parent[y] >= 0 ==>
         weight[y] <= weight[x]
  }

  /** What was joined earlier weighs no more than what was joined later. */
  ghost predicate InOrder(N: int, weight: seq<int>, parent: seq<int>) {
    && N < |weight| == |parent|
    && forall x, y {:trigger weight[x], weight[y]} :: 1 <= x <= N && 1 <= y <= N && 0 <= parent[x] < parent[y] ==>
         weight[x] <= weight[y]
  }

  lemma JoinForest(n: int, N: int, parent: seq<int>, left: seq<int>, right: seq<int>, a: int, b: int)
    requires Forest(n, N, parent, left, right) && N + 1 < |parent|
    requires 1 <= a <= N && 1 <= b <= N && a != b && parent[a] < 0 && parent[b] < 0
    ensures Forest(n, N + 1, parent[a := N + 1][b := N + 1][N + 1 := -1], left[N + 1 := a], right[N + 1 := b])
  {
  }

  lemma JoinRoots(n: int, N: int, parent: seq<int>, left: seq<int>, right: seq<int>, a: int, b: int)
    requires Forest(n, N, parent, left, right) && N + 1 < |parent|
    requires 1 <= a <= N && 1 <= b <= N && a != b && parent[a] < 0 && parent[b] < 0
    ensures multiset(Roots(parent[a := N + 1][b := N + 1][N + 1 := -1], N + 1))
         == multiset(Roots(parent, N)) - multiset{a} - multiset{b} + multiset{N + 1}
  {
    var after := parent[a := N + 1][b := N + 1][N + 1 := -1];
    assert Roots(after, N + 1) == Roots(parent, N) - {a} - {b} + {N + 1};
  }

  lemma JoinWeighed(n: int, N: int, weight: seq<int>, left: seq<int>, right: seq<int>, a: int, b: int)
    requires Weighed(n, N, weight, left, right) && N + 1 < |weight|
    requires 1 <= a <= N && 1 <= b <= N && 0 <= weight[a] && 0 <= weight[b] && D(weight[a]) < 255 && D(weight[b]) < 255
    ensures Weighed(n, N + 1, weight[N + 1 := AddWeights(weight[a], weight[b])], left[N + 1 := a], right[N + 1 := b])
  {
    hide W, D, Max;
  }

  lemma JoinExtracted(N: int, weight: seq<int>, parent: seq<int>, a: int, b: int)
    requires Extracted(N, weight, parent) && InOrder(N, weight, parent) && N + 1 < |weight|
    requires 1 <= a <= N && 1 <= b <= N && a != b && parent[a] < 0 && parent[b] < 0
    requires 0 <= weight[a] && 0 <= weight[b] && D(weight[a]) < 255 && D(weight[b]) < 255
    requires forall x {:trigger weight[x]} :: 1 <= x <= N && parent[x] < 0 ==>
      weight[a] <= weight[x] && (x != a ==> weight[b] <= weight[x])
    requires forall x {:trigger parent[x]} :: 1 <= x <= N ==> parent[x] <= N
    ensures Extracted(N + 1, weight[N + 1 := AddWeights(weight[a], weight[b])],
      parent[a := N + 1][b := N + 1][N + 1 := -1])
    ensures InOrder(N + 1, weight[N + 1 := AddWeights(weight[a], weight[b])],
      parent[a := N + 1][b := N + 1][N + 1 := -1])
  {
    var sum := AddWeights(weight[a], weight[b]);
    assert weight[b] <= sum && weight[a] <= sum;
    hide AddWeights, W, D;
    var weight' := weight[N + 1 := sum];
    var parent' := parent[a := N + 1][b := N + 1][N + 1 := -1];
    forall x, y {:trigger weight'[x], weight'[y]} | 1 <= x <= N + 1 && 1 <= y <= N + 1 && parent'[x] < 0
      && parent'[y] >= 0
      ensures weight'[y] <= weight'[x]
    {
      assert y <= N && weight'[y] == weight[y];
      if x == N + 1 {
        assert parent[y] >= 0 ==> weight[y] <= weight[a];
      } else {
        assert weight'[x] == weight[x] && x != a && x != b;
      }
    }
    forall x, y {:trigger weight'[x], weight'[y]} | 1 <= x <= N + 1 && 1 <= y <= N + 1 && 0 <= parent'[x] < parent'[y]
      ensures weight'[x] <= weight'[y]
    {
      assert weight'[x] == weight[x] && weight'[y] == weight[y];
      assert x <= N && parent[x] >= 0;
    }
  }

  /** A joined node has a child one lower than itself. */
  lemma TallerChild(n: int, N: int, weight: seq<int>, parent: seq<int>, left: seq<int>, right: seq<int>, c: int)
    returns (g: int)
    requires Forest(n, N, parent, left, right) && Weighed(n, N, weight, left, right) && 1 <= c <= N && D(weight[c]) > 0
    ensures 1 <= g <= N && parent[g] >= 0 && D(weight[g]) == D(weight[c]) - 1
  {
    var l, r := left[c], right[c];
    g := if D(weight[l]) >= D(weight[r]) then l else r;
    assert parent[l] == c && parent[r] == c;
    hide Forest, D;
  }

  /** The Fibonacci bound passes to the new node: the lighter half of the taller tree was joined before its sibling. */
  lemma JoinedSize(n: int, N: int, weight: seq<int>, parent: seq<int>, left: seq<int>, right: seq<int>, total: int,
                   c: int, d: int)
    requires Forest(n, N, parent, left, right) && Weighed(n, N, weight, left, right) && Sized(N, weight, total)
    requires Extracted(N, weight, parent)
    requires 1 <= c <= N && 1 <= d <= N && parent[d] < 0 && D(weight[d]) <= D(weight[c])
    ensures Fib(D(weight[c]) + 3) <= W(weight[c]) + W(weight[d])
  {
    var h := D(weight[c]);
    assert Fib(h + 3) == Fib(h + 2) + Fib(h + 1);
    if h == 0 {
      FibGrows(1, D(weight[d]) + 2);
      assert Fib(1) == 1;
      hide Forest, Weighed, Extracted;
    } else {
      var g := TallerChild(n, N, weight, parent, left, right, c);
      assert weight[g] <= weight[d];
      hide Forest, Weighed, Extracted, Fib;
    }
  }

  lemma JoinSized(n: int, N: int, weight: seq<int>, parent: seq<int>, left: seq<int>, right: seq<int>, total: int,
                  a: int, b: int,
                  weight': seq<int>, parent': seq<int>, left': seq<int>, right': seq<int>)
    requires Forest(n, N, parent, left, right) && Weighed(n, N, weight, left, right) && Sized(N, weight, total)
    requires Extracted(N, weight, parent) && N + 1 < |weight|
    requires 1 <= a <= N && 1 <= b <= N && a != b && parent[a] < 0 && parent[b] < 0 && D(weight[a]) < 255
      && D(weight[b]) < 255
    requires weight[a] >= 0 && weight[b] >= 0 && weight' == weight[N + 1 := AddWeights(weight[a], weight[b])]
    requires Forest(n, N + 1, parent', left', right') && Weighed(n, N + 1, weight', left', right')
      && parent'[N + 1] == -1
    requires total == Sum(Frequencies(weight'), n)
    ensures Sized(N + 1, weight', total)
  {
    hide Forest, Weighed, Sized, Extracted, Fib, Frequencies, Sum;
    var s := AddWeights(weight[a], weight[b]);
    if D(weight[b]) <= D(weight[a]) {
      JoinedSize(n, N, weight, parent, left, right, total, a, b);
    } else {
      JoinedSize(n, N, weight, parent, left, right, total, b, a);
    }
    TopWithin(n, N + 1, weight', parent', left', right');
    assert weight'[N + 1] == s;
    SizedMore(N, weight, s, total);
  }

  lemma SizedMore(N: int, weight: seq<int>, s: int, total: int)
    requires Sized(N, weight, total) && N + 1 < |weight| && 0 <= s && Fib(D(s) + 2) <= W(s) <= total
    ensures Sized(N + 1, weight[N + 1 := s], total)
  {
  }

  /** A root's frequency is at most the sum over the leaves. */
  lemma TopWithin(n: int, N: int, weight: seq<int>, parent: seq<int>, left: seq<int>, right: seq<int>)
    requires Forest(n, N, parent, left, right) && Weighed(n, N, weight, left, right) && parent[N] < 0
    ensures W(weight[N]) <= Sum(Frequencies(weight), n)
  {
    hide W, D, Max;
    var f := Frequencies(weight);
    PositiveFrequencies(n, N, weight, left, right);
    assert AddsUp(f, n, N, parent, left, right);
    FrontConstant(f, n, N, parent, left, right, N);
    FrontLeaves(f, n, N, parent, left, right, n);
    RootWithin(f, parent, N, N, N);
  }

  lemma {:induction false} PositiveFrequencies(n: int, N: int, weight: seq<int>, left: seq<int>, right: seq<int>)
    requires Weighed(n, N, weight, left, right)
    ensures forall y {:trigger Frequencies(weight)[y]} :: 1 <= y <= N ==> Frequencies(weight)[y] >= 1
  {
    hide W, D, Max;
    var f := Frequencies(weight);
    var k := 0;
    while k < N
      invariant 0 <= k <= N
      invariant forall y {:trigger f[y]} :: 1 <= y <= k ==> f[y] >= 1
    {
      k := k + 1;
      if k > n {
        var l, r := left[k], right[k];
        assert f[l] >= 1 && f[r] >= 1 && f[k] == f[l] + f[r];
      } else {
        assert f[k] == W(weight[k]);
      }
    }
  }

  /** The Fibonacci numbers that matter here. */
  lemma FibValues()
    ensures Fib(15) == 610 && Fib(34) == 5702887 && Fib(35) == 9227465
  {
    assert Fib(5) == 5 && Fib(6) == 8;
    assert Fib(7) == 13 && Fib(8) == 21;
    assert Fib(9) == 34 && Fib(10) == 55;
    assert Fib(11) == 89 && Fib(12) == 144;
    assert Fib(13) == 233 && Fib(14) == 377;
    assert Fib(15) == 610 && Fib(16) == 987;
    assert Fib(17) == 1597 && Fib(18) == 2584;
    assert Fib(19) == 4181 && Fib(20) == 6765;
    assert Fib(21) == 10946 && Fib(22) == 17711;
    assert Fib(23) == 28657 && Fib(24) == 46368;
    assert Fib(25) == 75025 && Fib(26) == 121393;
    assert Fib(27) == 196418 && Fib(28) == 317811;
    assert Fib(29) == 514229 && Fib(30) == 832040;
    assert Fib(31) == 1346269 && Fib(32) == 2178309;
    assert Fib(33) == 3524578 && Fib(34) == 5702887;
  }

  /** With frequencies below 2^23 in all, no height passes 32: the low byte never overflows. */
  lemma HeightBounded(N: int, weight: seq<int>, total: int, x: int)
    requires Sized(N, weight, total) && total < 0x80_0000 && 1 <= x <= N
    ensures 0 <= weight[x] < 0x8000_0000 && D(weight[x]) <= 32
  {
    FibValues();
    if D(weight[x]) > 32 { FibGrows(35, D(weight[x]) + 2); }
  }

  // ----- depths ----------------------------------------------------------------------------------------------

  /** The number of joins above node k. */
  function Depth(parent: seq<int>, k: int): (r: nat)
    decreases |parent| - k
  {
    if 0 <= k < |parent| && k < parent[k] then 1 + Depth(parent, parent[k]) else 0
  }

  lemma {:induction false} DepthHeight(n: int, N: int, weight: seq<int>, parent: seq<int>, left: seq<int>,
                                       right: seq<int>, k: int)
    requires Forest(n, N, parent, left, right) && Weighed(n, N, weight, left, right) && Roots(parent, N) == {N}
    requires 1 <= k <= N
    ensures Depth(parent, k) + D(weight[k]) <= D(weight[N])
    decreases N - k
  {
    if parent[k] >= 0 {
      var p := parent[k];
      DepthHeight(n, N, weight, parent, left, right, p);
      assert k == left[p] || k == right[p];
    } else {
      assert k in Roots(parent, N);
    }
  }

  /** If x is joined before y and both are joined into nodes of the forest, so are their parents ordered. */
  lemma ParentsOrdered(n: int, N: int, weight: seq<int>, parent: seq<int>, left: seq<int>, right: seq<int>, x: int,
                       y: int)
    requires Forest(n, N, parent, left, right) && Weighed(n, N, weight, left, right) && InOrder(N, weight, parent)
    requires 1 <= x <= N && 1 <= y <= N && W(weight[x]) < W(weight[y]) && 0 <= parent[x] < parent[y]
    ensures parent[y] <= N && W(weight[parent[x]]) < W(weight[parent[y]])
  {
    var p, q := parent[x], parent[y];
    var lp, rp, lq, rq := left[p], right[p], left[q], right[q];
    assert parent[lp] == p && parent[rp] == p && parent[lq] == q && parent[rq] == q;
    assert weight[lp] <= weight[lq] && weight[lp] <= weight[rq];
    assert weight[rp] <= weight[lq] && weight[rp] <= weight[rq];
    assert W(weight[p]) == W(weight[lp]) + W(weight[rp]);
    assert W(weight[q]) == W(weight[lq]) + W(weight[rq]);
    hide Forest, Weighed, InOrder;
  }

  /** If y is joined and x weighs less, x was joined no later. */
  lemma JoinedNoLater(n: int, N: int, weight: seq<int>, parent: seq<int>, left: seq<int>, right: seq<int>, x: int,
                      y: int)
    requires Forest(n, N, parent, left, right) && Extracted(N, weight, parent) && InOrder(N, weight, parent)
    requires 1 <= x <= N && 1 <= y <= N && W(weight[x]) < W(weight[y]) && parent[y] >= 0
    ensures 0 <= parent[x] <= parent[y] <= N && x < parent[x] && y < parent[y]
  {
    assert weight[x] < weight[y];
    hide W;
    if parent[x] < 0 { assert false; }
  }

  /** A node of smaller frequency is nowhere higher in the tree. */
  lemma {:induction false} LighterIsDeeper(n: int, N: int, weight: seq<int>, parent: seq<int>, left: seq<int>,
                                           right: seq<int>, x: int, y: int)
    requires Forest(n, N, parent, left, right) && Weighed(n, N, weight, left, right)
    requires Extracted(N, weight, parent) && InOrder(N, weight, parent)
    requires 1 <= x <= N < |parent| == |weight| && 1 <= y <= N && W(weight[x]) < W(weight[y])
    ensures Depth(parent, x) >= Depth(parent, y)
    decreases 2 * N - x - y
  {
    hide Forest, Weighed, InOrder, Extracted, W;
    if parent[y] >= 0 {
      JoinedNoLater(n, N, weight, parent, left, right, x, y);
      var p, q := parent[x], parent[y];
      if p < q {
        ParentsOrdered(n, N, weight, parent, left, right, x, y);
        LighterIsDeeper(n, N, weight, parent, left, right, p, q);
      }
    }
  }
}
