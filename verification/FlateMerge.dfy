/**
 What the nodes of deflate's tree weigh: a father as much as his sons, the nodes listed in the order of their weights
 (dep/zlib/trees.c:662-697, the IN assertion of gen_bitlen at 480-482). So its depths cost the least.
 */
module FlateMerge {
  import opened BitLengths
  import opened FlateHeap
  import opened FlateTree
  import opened HuffmanHeap
  import opened Powers
  import opened TreeCost
  import HuffmanTree
  import O = HuffmanOptimal

  const WRAP16 := 0x1_0000

  /** Where the first son of a joined node is listed, the second right before it. */
  function SonAt(elems: int, t: int): int {
    HEAP_SIZE - 1 - 2 * (t - elems)
  }

  /** The frequencies of all nodes below n that are not joined. */
  ghost function TopSum(f: seq<int>, pos: seq<int>, n: nat): int
    requires n <= |f| && n <= |pos|
  {
    if n == 0 then 0 else TopSum(f, pos, n - 1) + if pos[n - 1] == -1 then f[n - 1] else 0
  }

  /** A father weighs what his two sons do, the first of them no heavier. */
  ghost predicate FatherAt(f: seq<int>, heap: seq<int>, elems: int, t: int) {
    var i := SonAt(elems, t);
    && 1 <= i < |heap| && 0 <= heap[i] < |f| && 0 <= heap[i - 1] < |f| && 0 <= t < |f|
    && f[t] == f[heap[i]] + f[heap[i - 1]] && f[heap[i]] <= f[heap[i - 1]]
  }

  /** The list is in order, and what is not joined is no lighter than what is. */
  ghost predicate Sorted(f: seq<int>, heap: seq<int>, heapMax: int, N: int, pos: seq<int>) {
    && 0 <= heapMax && |heap| == HEAP_SIZE && N < |f| && N < |pos|
    && (forall i {:trigger heap[i]} :: heapMax <= i < HEAP_SIZE ==> 0 <= heap[i] <= N)
    && (forall i, j {:trigger heap[i], heap[j]} :: heapMax <= i <= j < HEAP_SIZE ==> f[heap[j]] <= f[heap[i]])
    && forall i, y {:trigger heap[i], pos[y]} :: heapMax <= i < HEAP_SIZE && 0 <= y <= N && pos[y] == -1 ==>
         f[heap[i]] <= f[y]
  }

  /** The weights as far as nodes are joined; their sum stays what it was, so nothing wraps. */
  ghost predicate Merged(f: seq<int>, heap: seq<int>, heapMax: int, elems: int, N: int, pos: seq<int>, total: int) {
    && 0 <= elems <= N + 1 <= |f| && N < |pos| && Sorted(f, heap, heapMax, N, pos)
    && (forall t {:trigger FatherAt(f, heap, elems, t)} :: elems <= t <= N ==> FatherAt(f, heap, elems, t))
    && (forall y {:trigger f[y]} :: 0 <= y <= N ==> 0 <= f[y])
    && TopSum(f, pos, N + 1) == total < WRAP16
  }

  lemma {:induction false} TopSumSame(f: seq<int>, g: seq<int>, pos: seq<int>, q: seq<int>, n: nat)
    requires n <= |f| && n <= |pos| && n <= |g| && n <= |q|
    requires forall y {:trigger g[y]} :: 0 <= y < n ==> g[y] == f[y]
    requires forall y {:trigger q[y]} :: 0 <= y < n ==> (q[y] == -1 <==> pos[y] == -1)
    ensures TopSum(g, q, n) == TopSum(f, pos, n)
  {
    if n > 0 {
      TopSumSame(f, g, pos, q, n - 1);
      assert g[n - 1] == f[n - 1];
    }
  }

  lemma {:induction false} TopSumDrop(f: seq<int>, pos: seq<int>, y: nat, v: int, n: nat)
    requires n <= |f| && n <= |pos| && y < |pos| && pos[y] == -1 && v != -1
    ensures y < |f| ==> TopSum(f, pos[y := v], n) == TopSum(f, pos, n) - if y < n then f[y] else 0
    ensures n <= y ==> TopSum(f, pos[y := v], n) == TopSum(f, pos, n)
  {
    if n > 0 { TopSumDrop(f, pos, y, v, n - 1); }
  }

  /** None of the nodes not joined, nor two of them, weigh more than all. */
  lemma {:induction false} TopsWithin(f: seq<int>, pos: seq<int>, n: nat)
    requires n <= |f| && n <= |pos| && forall y {:trigger f[y]} :: 0 <= y < n ==> 0 <= f[y]
    ensures TopSum(f, pos, n) >= 0
    ensures forall y {:trigger f[y]} :: 0 <= y < n && pos[y] == -1 ==> f[y] <= TopSum(f, pos, n)
  {
    if n > 0 { TopsWithin(f, pos, n - 1); }
  }

  /** The order of weights is that of frequencies, but for ties. */
  lemma LighterIsRarer(freq: seq<int>, depth: seq<int>, count: int, n: int, x: int)
    requires Weighty(freq, depth, count) && 0 <= n < count && 0 <= x < count
    requires Weights(freq, depth, count)[n] <= Weights(freq, depth, count)[x]
    ensures freq[n] <= freq[x]
  {
  }

  /** n and m are the lightest of what is not joined, and the lightest but for n. */
  ghost predicate TwoLightest(f: seq<int>, pos: seq<int>, N: int, n: int, m: int) {
    && N < |f| && N < |pos| && 0 <= n <= N && 0 <= m <= N && n != m && pos[n] == pos[m] == -1
    && forall x {:trigger f[x]} :: 0 <= x <= N && pos[x] == -1 ==> f[n] <= f[x] && (x != n ==> f[m] <= f[x])
  }

  lemma Lightest(freq: seq<int>, depth: seq<int>, pos: seq<int>, N: int, held: multiset<int>, n: int, m: int)
    requires 0 <= N < |freq| && N < |depth| && N < |pos| && Weighty(freq, depth, N + 1)
    requires held == multiset(Tops(pos, N)) && n in held && m in held - multiset{n}
    requires Least(Weights(freq, depth, N + 1), held, n) && Least(Weights(freq, depth, N + 1), held - multiset{n}, m)
    ensures TwoLightest(freq, pos, N, n, m)
  {
    var w := Weights(freq, depth, N + 1);
    assert n in Tops(pos, N) && held[n] == 1;
    assert m in Tops(pos, N);
    hide Weights;
    forall x {:trigger freq[x]} | 0 <= x <= N && pos[x] == -1
      ensures freq[n] <= freq[x] && (x != n ==> freq[m] <= freq[x])
    {
      assert x in Tops(pos, N);
      assert x in held;
      LighterIsRarer(freq, depth, N + 1, n, x);
      if x != n {
        assert x in held - multiset{n};
        LighterIsRarer(freq, depth, N + 1, m, x);
      }
    }
  }

  /** What the next join changes, in the heap and in what pos says. */
  ghost predicate NextJoin(f: seq<int>, heap: seq<int>, heapMax: int, N: int, pos: seq<int>, n: int, m: int,
    f': seq<int>,
                           heap': seq<int>, pos': seq<int>) {
    && 2 <= heapMax <= HEAP_SIZE && |f'| == |f| && N + 1 < |f| && N + 1 < |pos| && |heap'| == |heap| == HEAP_SIZE
    && TwoLightest(f, pos, N, n, m)
    && (forall y {:trigger f'[y]} :: 0 <= y <= N ==> f'[y] == f[y]) && f'[N + 1] == (f[n] + f[m]) % WRAP16
    && heap'[heapMax - 1] == n && heap'[heapMax - 2] == m
    && (forall i {:trigger heap'[i]} :: heapMax <= i < HEAP_SIZE ==> heap'[i] == heap[i])
    && pos' == pos[n := heapMax - 1][m := heapMax - 2][N + 1 := -1]
  }

  /** Two that are not joined weigh no more than all, so their sum does not wrap. */
  lemma NoWrap(f: seq<int>, pos: seq<int>, N: int, n: int, m: int)
    requires 0 <= n <= N < |f| && 0 <= m <= N < |pos| && n != m && pos[n] == pos[m] == -1
    requires forall y {:trigger f[y]} :: 0 <= y <= N ==> 0 <= f[y]
    ensures 0 <= f[n] + f[m] <= TopSum(f, pos, N + 1)
  {
    TopSumDrop(f, pos, n, 0, N + 1);
    TopsWithin(f, pos[n := 0], N + 1);
    assert pos[n := 0][m] == -1 && f[m] >= 0 && f[n] >= 0;
  }

  lemma SumJoined(f: seq<int>, pos: seq<int>, N: int, n: int, m: int, f': seq<int>, at: int)
    requires 0 <= n <= N && 0 <= m <= N && n != m && N + 1 < |f| == |f'| && N + 1 < |pos| && 2 <= at
    requires pos[n] == pos[m] == -1
    requires (forall y {:trigger f'[y]} :: 0 <= y <= N ==> f'[y] == f[y]) && f'[N + 1] == f[n] + f[m]
    ensures TopSum(f', pos[n := at - 1][m := at - 2][N + 1 := -1], N + 2) == TopSum(f, pos, N + 1)
  {
    var a := pos[n := at - 1];
    var b := a[m := at - 2];
    var c := b[N + 1 := -1];
    TopSumDrop(f, pos, n, at - 1, N + 1);
    TopSumDrop(f, a, m, at - 2, N + 1);
    TopSumSame(f, f', b, c, N + 1);
    assert c[N + 1] == -1;
  }

  lemma MergedOn(f: seq<int>, heap: seq<int>, heapMax: int, elems: int, N: int, pos: seq<int>, total: int, n: int,
    m: int,
                 f': seq<int>, heap': seq<int>, pos': seq<int>)
    requires Merged(f, heap, heapMax, elems, N, pos, total) && NextJoin(f, heap, heapMax, N, pos, n, m, f', heap', pos')
    requires heapMax == HEAP_SIZE - 2 * (N - elems + 1)
    ensures Merged(f', heap', heapMax - 2, elems, N + 1, pos', total)
  {
    NoWrap(f, pos, N, n, m);
    SmallSum(f[n] + f[m], total);
    SumJoined(f, pos, N, n, m, f', heapMax);
    hide TopSum;
    SortedOn(f, heap, heapMax, elems, N, pos, total, n, m, f', heap', pos');
    hide Sorted, NextJoin, TwoLightest;
    forall t {:trigger FatherAt(f', heap', elems, t)} | elems <= t <= N + 1 ensures FatherAt(f', heap', elems, t) {
      FatherOn(f, heap, heapMax, elems, N, pos, total, n, m, f', heap', pos', t);
    }
    MergedFrom(f, heap, heapMax, elems, N, pos, total, n, m, f', heap', pos');
  }

  lemma SmallSum(x: int, total: int)
    requires 0 <= x <= total < WRAP16
    ensures x % WRAP16 == x
  {
  }

  lemma MergedFrom(f: seq<int>, heap: seq<int>, heapMax: int, elems: int, N: int, pos: seq<int>, total: int, n: int,
    m: int,
                   f': seq<int>, heap': seq<int>, pos': seq<int>)
    requires Merged(f, heap, heapMax, elems, N, pos, total) && NextJoin(f, heap, heapMax, N, pos, n, m, f', heap', pos')
    requires N + 1 < |f'| && N + 1 < |pos'| && TopSum(f', pos', N + 2) == total
      && Sorted(f', heap', heapMax - 2, N + 1, pos')
    requires forall t {:trigger FatherAt(f', heap', elems, t)} :: elems <= t <= N + 1 ==> FatherAt(f', heap', elems, t)
    requires f'[N + 1] >= 0
    ensures Merged(f', heap', heapMax - 2, elems, N + 1, pos', total)
  {
    hide TopSum, Sorted, FatherAt;
    forall y {:trigger f'[y]} | 0 <= y <= N + 1 ensures 0 <= f'[y] { if y <= N { assert f'[y] == f[y]; } }
  }

  lemma FatherOn(f: seq<int>, heap: seq<int>, heapMax: int, elems: int, N: int, pos: seq<int>, total: int, n: int,
    m: int,
                 f': seq<int>, heap': seq<int>, pos': seq<int>, t: int)
    requires Merged(f, heap, heapMax, elems, N, pos, total) && NextJoin(f, heap, heapMax, N, pos, n, m, f', heap', pos')
    requires heapMax == HEAP_SIZE - 2 * (N - elems + 1) && elems <= t <= N + 1 && f'[N + 1] == f[n] + f[m]
    ensures FatherAt(f', heap', elems, t)
  {
    hide TopSum;
    var i := SonAt(elems, t);
    if t <= N {
      assert FatherAt(f, heap, elems, t);
      assert heapMax <= i - 1 < i < HEAP_SIZE;
      assert heap'[i] == heap[i] && heap'[i - 1] == heap[i - 1];
      assert 0 <= heap[i] <= N && 0 <= heap[i - 1] <= N;
    } else {
      assert i == heapMax - 1;
    }
  }

  lemma SortedOn(f: seq<int>, heap: seq<int>, heapMax: int, elems: int, N: int, pos: seq<int>, total: int, n: int,
    m: int,
                 f': seq<int>, heap': seq<int>, pos': seq<int>)
    requires Merged(f, heap, heapMax, elems, N, pos, total) && NextJoin(f, heap, heapMax, N, pos, n, m, f', heap', pos')
    requires f'[N + 1] == f[n] + f[m]
    ensures N + 1 < |f'| && N + 1 < |pos'| && Sorted(f', heap', heapMax - 2, N + 1, pos')
  {
    hide TopSum, FatherAt;
    forall i {:trigger heap'[i]} | heapMax - 2 <= i < HEAP_SIZE
      ensures 0 <= heap'[i] <= N && f'[heap'[i]] <= f[m]
        && (i >= heapMax ==> f'[heap'[i]] <= f[n] && heap'[i] == heap[i])
    {
      if i >= heapMax { assert heap'[i] == heap[i] && 0 <= heap[i] <= N; }
    }
    forall i, j {:trigger heap'[i], heap'[j]} | heapMax - 2 <= i <= j < HEAP_SIZE ensures f'[heap'[j]] <= f'[heap'[i]] {
      if i >= heapMax {
        assert heap'[i] == heap[i] && heap'[j] == heap[j];
        assert 0 <= heap[i] <= N && 0 <= heap[j] <= N;
      }
    }
    forall i, y {:trigger heap'[i], pos'[y]} | heapMax - 2 <= i < HEAP_SIZE && 0 <= y <= N + 1 && pos'[y] == -1
      ensures f'[heap'[i]] <= f'[y]
    {
      assert f[n] >= 0 && f[m] >= 0;
      if y <= N { assert pos[y] == -1 && f[m] <= f[y] && f'[y] == f[y]; }
    }
  }

  // ----- the whole list ---------------------------------------------------------------------------------------------

  /** The father of each node, as its place in the list says; -1 for symbols that are not listed. */
  ghost function Fathers(pos: seq<int>, S: int, elems: int, N: nat): (par: seq<int>)
    requires N < |pos|
    ensures |par| == N + 1
    ensures forall x {:trigger par[x]} :: 0 <= x <= N ==>
      par[x] == if x == N then N + 1 else if pos[x] > S then DadUp(elems, pos[x]) else -1
  {
    seq(N + 1, x requires 0 <= x <= N => if x == N then N + 1 else if pos[x] > S then DadUp(elems, pos[x]) else -1)
  }

  /** The first or the second son of each node. */
  ghost function Sons(heap: seq<int>, elems: int, N: nat, off: int): (sons: seq<int>)
    ensures |sons| == N + 1
    ensures forall t {:trigger sons[t]} :: 0 <= t <= N ==>
      sons[t] == var i := SonAt(elems, t) - off; if elems <= t && 0 <= i < |heap| then heap[i] else 0
  {
    seq(N + 1, t requires 0 <= t <= N => var i := SonAt(elems, t) - off;
      if elems <= t && 0 <= i < |heap| then heap[i] else 0)
  }

  /** Where node x is listed is where one of its father's sons is. */
  lemma PlaceAt(heap: seq<int>, S: int, elems: int, N: int, pos: seq<int>, x: int)
    requires Listed(heap, S, elems, N, pos) && 0 <= x < N && pos[x] > S
    ensures pos[x] < HEAP_SIZE == |heap| && heap[pos[x]] == x && 0 <= S
    ensures var t := DadUp(elems, pos[x]); elems <= t <= N && x < t && pos[x] in {SonAt(elems, t), SonAt(elems, t) - 1}
  {
    hide DadAt, DadUp;
    assert heap[pos[x]] == x;
    SameDad(elems, N, S, pos[x]);
    DadIs(elems, pos[x], N, S);
  }

  lemma DadIs(elems: int, i: int, N: int, S: int)
    requires S < i < HEAP_SIZE && HEAP_SIZE - S - 1 == 2 * (N - elems + 1)
    ensures var t := DadUp(elems, i); elems <= t <= N && (i == SonAt(elems, t) || i == SonAt(elems, t) - 1)
  {
  }

  lemma SonsAt(heap: seq<int>, S: int, elems: int, N: int, pos: seq<int>, t: int)
    requires Listed(heap, S, elems, N, pos) && elems <= t <= N
    ensures var i := SonAt(elems, t);
      && 0 <= S < i - 1 < i < HEAP_SIZE == |heap| && 0 <= heap[i] < t && 0 <= heap[i - 1] < t && heap[i] != heap[i - 1]
      && t <= N < |pos| && pos[heap[i]] == i && pos[heap[i - 1]] == i - 1
      && DadUp(elems, i) == DadUp(elems, i - 1) == t
  {
    var i := SonAt(elems, t);
    SameDad(elems, N, S, i);
    SameDad(elems, N, S, i - 1);
    hide DadAt;
    assert 0 <= heap[i] < DadAt(N, S, i) && 0 <= heap[i - 1] < DadAt(N, S, i - 1);
  }

  lemma ListedSizes(heap: seq<int>, S: int, elems: int, N: int, pos: seq<int>)
    requires Listed(heap, S, elems, N, pos)
    ensures HEAP_SIZE - S - 1 == 2 * (N - elems + 1)
    ensures 1 <= elems <= N < |pos| && 0 <= S < HEAP_SIZE == |heap| && forall t {:trigger pos[t]} ::
      elems <= t < N ==> S < pos[t]
  {
  }

  lemma ListedNode(heap: seq<int>, S: int, elems: int, N: int, pos: seq<int>, f: seq<int>, x: nat)
    requires Listed(heap, S, elems, N, pos) && |f| == N + 1 && x <= N
    ensures 1 <= elems && 0 <= N < |pos|
    ensures O.NodeAt(elems, N, Fathers(pos, S, elems, N), Sons(heap, elems, N, 0), Sons(heap, elems, N, 1), f, x)
  {
    hide Listed, DadUp, SonAt, Fathers, Sons;
    ListedSizes(heap, S, elems, N, pos);
    if x < N && pos[x] > S { PlaceAt(heap, S, elems, N, pos, x); }
    if elems <= x { SonsAt(heap, S, elems, N, pos, x); }
  }

  lemma ListedTree(heap: seq<int>, S: int, elems: int, N: int, pos: seq<int>, f: seq<int>)
    requires Listed(heap, S, elems, N, pos) && |f| == N + 1
    ensures 1 <= elems <= N < |pos|
    ensures O.Tree(elems, N, Fathers(pos, S, elems, N), Sons(heap, elems, N, 0), Sons(heap, elems, N, 1), f)
  {
    hide *;
    ListedSizes(heap, S, elems, N, pos);
    var par, a, b := Fathers(pos, S, elems, N), Sons(heap, elems, N, 0), Sons(heap, elems, N, 1);
    forall x: nat {:trigger O.NodeAt(elems, N, par, a, b, f, x)} | x <= N ensures O.NodeAt(elems, N, par, a, b, f, x) {
      ListedNode(heap, S, elems, N, pos, f, x);
    }
    O.TreeFrom(elems, N, par, a, b, f);
  }

  /** The weights when all nodes are listed. */
  ghost predicate AllSorted(f: seq<int>, heap: seq<int>, S: int, elems: int, N: int) {
    && 0 <= S && 0 <= N < |f| && |heap| == HEAP_SIZE
    && (forall i {:trigger heap[i]} :: S < i < HEAP_SIZE ==> 0 <= heap[i] <= N)
    && (forall i, j {:trigger heap[i], heap[j]} :: S < i <= j < HEAP_SIZE ==>
         0 <= heap[i] <= N && 0 <= heap[j] <= N && f[heap[j]] <= f[heap[i]])
    && (forall t {:trigger FatherAt(f, heap, elems, t)} :: elems <= t <= N ==> FatherAt(f, heap, elems, t))
    && (forall y {:trigger f[y]} :: 0 <= y <= N ==> 0 <= f[y])
  }

  lemma ListedHeavier(heap: seq<int>, S: int, elems: int, N: int, pos: seq<int>, f: seq<int>)
    requires Listed(heap, S, elems, N, pos) && |f| == N + 1 && AllSorted(f, heap, S, elems, N)
    requires 1 <= elems <= N < |pos|
    requires O.Tree(elems, N, Fathers(pos, S, elems, N), Sons(heap, elems, N, 0), Sons(heap, elems, N, 1), f)
    ensures O.Heavier(elems, N, Fathers(pos, S, elems, N), Sons(heap, elems, N, 0), Sons(heap, elems, N, 1), f)
  {
    hide *;
    var par, a, b := Fathers(pos, S, elems, N), Sons(heap, elems, N, 0), Sons(heap, elems, N, 1);
    forall t: nat {:trigger O.JoinAt(N, a, b, f, t)} | elems <= t <= N ensures O.JoinAt(N, a, b, f, t) {
      ListedJoin(heap, S, elems, N, pos, f, t);
    }
    SortedPositive(f, heap, S, elems, N);
    forall x: nat, y: nat {:trigger O.NoHeavier(par, f, x, y)} | x <= N && y <= N ensures O.NoHeavier(par, f, x, y) {
      ListedOrder(heap, S, elems, N, pos, f, x, y);
    }
    O.HeavierFrom(elems, N, par, a, b, f);
  }

  lemma SortedPositive(f: seq<int>, heap: seq<int>, S: int, elems: int, N: int)
    requires AllSorted(f, heap, S, elems, N)
    ensures forall y {:trigger f[y]} :: 0 <= y <= N && y < |f| ==> 0 <= f[y]
  {
  }

  lemma ListedJoin(heap: seq<int>, S: int, elems: int, N: int, pos: seq<int>, f: seq<int>, t: nat)
    requires Listed(heap, S, elems, N, pos) && |f| == N + 1 && AllSorted(f, heap, S, elems, N) && elems <= t <= N
    ensures 0 <= N && O.JoinAt(N, Sons(heap, elems, N, 0), Sons(heap, elems, N, 1), f, t)
  {
    SonsAt(heap, S, elems, N, pos, t);
    assert FatherAt(f, heap, elems, t);
    hide Listed, SonAt, DadUp, Sons;
  }

  lemma ListedOrder(heap: seq<int>, S: int, elems: int, N: int, pos: seq<int>, f: seq<int>, x: nat, y: nat)
    requires Listed(heap, S, elems, N, pos) && |f| == N + 1 && AllSorted(f, heap, S, elems, N) && x <= N && y <= N
    ensures 0 <= N < |pos| && O.NoHeavier(Fathers(pos, S, elems, N), f, x, y)
  {
    hide Listed, SonAt, FatherAt, Fathers;
    ListedSizes(heap, S, elems, N, pos);
    var par := Fathers(pos, S, elems, N);
    if 0 <= par[x] < par[y] {
      assert x < N by { DadTop(heap, S, elems, N, pos, y); }
      PlaceAt(heap, S, elems, N, pos, x);
      if y < N {
        PlaceAt(heap, S, elems, N, pos, y);
        LaterDad(elems, pos[y], pos[x]);
        assert heap[pos[y]] == y && heap[pos[x]] == x;
      } else {
        RootHeaviest(heap, S, elems, N, pos, f, x);
      }
    }
  }

  lemma DadTop(heap: seq<int>, S: int, elems: int, N: int, pos: seq<int>, y: nat)
    requires Listed(heap, S, elems, N, pos) && y <= N
    ensures 0 <= N < |pos| && Fathers(pos, S, elems, N)[y] <= N + 1
  {
    hide Listed, SonAt, DadUp;
    ListedSizes(heap, S, elems, N, pos);
    if y < N && pos[y] > S { PlaceAt(heap, S, elems, N, pos, y); }
  }

  lemma LaterDad(elems: int, i: int, j: int)
    requires DadUp(elems, j) < DadUp(elems, i)
    ensures i <= j
  {
  }

  lemma RootHeaviest(heap: seq<int>, S: int, elems: int, N: int, pos: seq<int>, f: seq<int>, x: nat)
    requires Listed(heap, S, elems, N, pos) && |f| == N + 1 && AllSorted(f, heap, S, elems, N) && x < N && pos[x] > S
    ensures f[x] <= f[N]
  {
    SonsAt(heap, S, elems, N, pos, N);
    assert FatherAt(f, heap, elems, N);
    PlaceAt(heap, S, elems, N, pos, x);
    var i := SonAt(elems, N) - 1;
    assert i == S + 1;
    assert heap[pos[x]] == x && f[heap[pos[x]]] <= f[heap[i]];
    hide Listed;
  }

  // ----- the depths -------------------------------------------------------------------------------------------------

  /** The lengths are the depths: each listed node's is one more than its father's. */
  ghost predicate Unclamped(L: seq<int>, heap: seq<int>, S: int, N: int) {
    && 0 <= N < |L| && L[N] == 0 && 0 <= S
    && forall i {:trigger heap[i]} :: S < i < |heap| ==>
         0 <= heap[i] < N && 0 <= DadAt(N, S, i) <= N && L[heap[i]] == L[DadAt(N, S, i)] + 1
  }

  lemma ListedDeep(heap: seq<int>, S: int, elems: int, N: int, pos: seq<int>, L: seq<int>)
    requires Listed(heap, S, elems, N, pos) && Unclamped(L, heap, S, N)
    ensures 0 <= N < |pos| && |L[..N + 1]| == N + 1 && O.Deep(N, Fathers(pos, S, elems, N), L[..N + 1])
  {
    hide Listed, SonAt, DadAt, DadUp;
    ListedSizes(heap, S, elems, N, pos);
    var par, dep := Fathers(pos, S, elems, N), L[..N + 1];
    forall x {:trigger dep[x]} {:trigger par[x]} | 0 <= x < N && 0 <= par[x] <= N ensures dep[x] == dep[par[x]] + 1 {
      PlaceAt(heap, S, elems, N, pos, x);
      DadsSame(heap, S, elems, N, pos, pos[x]);
      assert heap[pos[x]] == x;
    }
  }

  lemma DadsSame(heap: seq<int>, S: int, elems: int, N: int, pos: seq<int>, i: int)
    requires Listed(heap, S, elems, N, pos) && S < i < HEAP_SIZE
    ensures DadAt(N, S, i) == DadUp(elems, i)
  {
    SameDad(elems, N, S, i);
    hide DadAt, DadUp;
  }

  /** The symbols that are listed. */
  ghost function ListedSymbols(pos: seq<int>, S: int, n: nat): (live: seq<bool>)
    requires n <= |pos|
    ensures |live| == n && forall y {:trigger live[y]} :: 0 <= y < n ==> (live[y] <==> pos[y] > S)
  {
    seq(n, y requires 0 <= y < n => pos[y] > S)
  }

  lemma LiveListed(heap: seq<int>, S: int, elems: int, N: int, pos: seq<int>)
    requires Listed(heap, S, elems, N, pos)
    ensures 1 <= elems <= N < |pos| && O.LiveAt(Fathers(pos, S, elems, N), elems - 1) == ListedSymbols(pos, S, elems)
  {
    hide Listed, SonAt, DadUp;
    ListedSizes(heap, S, elems, N, pos);
    var live := O.LiveAt(Fathers(pos, S, elems, N), elems - 1);
    forall y | 0 <= y < elems ensures live[y] == ListedSymbols(pos, S, elems)[y] {
      if pos[y] > S { PlaceAt(heap, S, elems, N, pos, y); }
    }
  }

  /** The depths cost the least. */
  lemma DepthsLeast(heap: seq<int>, S: int, elems: int, N: int, pos: seq<int>, f: seq<int>, L: seq<int>)
    requires Listed(heap, S, elems, N, pos) && AllSorted(f, heap, S, elems, N) && Unclamped(L, heap, S, N)
    ensures 1 <= elems <= N < |pos| && N < |L| && N < |f|
    ensures O.AtLeast(ListedSymbols(pos, S, elems), f[..N + 1],
      O.Cost(ListedSymbols(pos, S, elems), f[..N + 1], L[..N + 1]))
  {
    hide *;
    ListedSizes(heap, S, elems, N, pos);
    AllSortedSizes(f, heap, S, elems, N);
    var g := f[..N + 1];
    SortedFront(f, g, heap, S, elems, N);
    ListedTree(heap, S, elems, N, pos, g);
    ListedHeavier(heap, S, elems, N, pos, g);
    UnclampedSize(L, heap, S, N);
    ListedDeep(heap, S, elems, N, pos, L);
    LiveListed(heap, S, elems, N, pos);
    O.HuffmanLeast(elems, N, Fathers(pos, S, elems, N), Sons(heap, elems, N, 0), Sons(heap, elems, N, 1), g,
      L[..N + 1]);
  }

  lemma UnclampedSize(L: seq<int>, heap: seq<int>, S: int, N: int)
    requires Unclamped(L, heap, S, N)
    ensures 0 <= N < |L|
  {
  }

  lemma AllSortedSizes(f: seq<int>, heap: seq<int>, S: int, elems: int, N: int)
    requires AllSorted(f, heap, S, elems, N)
    ensures 0 <= N < |f|
  {
  }

  lemma SortedFront(f: seq<int>, g: seq<int>, heap: seq<int>, S: int, elems: int, N: int)
    requires AllSorted(f, heap, S, elems, N) && HEAP_SIZE - S - 1 == 2 * (N - elems + 1) && N < |f| && 0 <= N
    requires g == f[..N + 1]
    ensures N < |f| && AllSorted(g, heap, S, elems, N)
  {
    hide SonAt;
    forall t {:trigger FatherAt(g, heap, elems, t)} | elems <= t <= N ensures FatherAt(g, heap, elems, t) {
      assert FatherAt(f, heap, elems, t);
      SonListed(heap, S, N, elems, t, f);
    }
  }

  lemma SonListed(heap: seq<int>, S: int, N: int, elems: int, t: int, f: seq<int>)
    requires AllSorted(f, heap, S, elems, N) && elems <= t <= N && HEAP_SIZE - S - 1 == 2 * (N - elems + 1)
    ensures var i := SonAt(elems, t); S < i - 1 < i < |heap| && 0 <= heap[i] <= N && 0 <= heap[i - 1] <= N
  {
  }

  // ----- the bits ---------------------------------------------------------------------------------------------------

  /** The Kraft sum of the symbols that occur, in units of 2^-max. */
  ghost function OccurringRoom(freq: seq<int>, lens: seq<int>, max: nat, n: nat): int
    requires n <= |freq| && n <= |lens|
  {
    if n == 0 then 0
    else
      OccurringRoom(freq, lens, max, n - 1)
      + if freq[n - 1] != 0 && 0 <= lens[n - 1] <= max then Pow2(max - lens[n - 1]) else 0
  }

  /** Each symbol that occurs has a length from 1 to max, and there is room for all of them. */
  ghost predicate Suits(freq: seq<int>, lens: seq<int>, max: nat, n: nat) {
    && n <= |freq| && n <= |lens| && (forall y {:trigger lens[y]} :: 0 <= y < n && freq[y] != 0 ==> 1 <= lens[y] <= max)
    && OccurringRoom(freq, lens, max, n) <= Pow2(max)
  }

  /** No lengths that suit cost fewer bits. */
  ghost predicate Cheapest(freq: seq<int>, lens: seq<int>, d: Desc, n: nat) {
    && n <= |freq| && n <= |lens|
    && forall other: seq<int>, max: nat {:trigger Suits(freq, other, max, n)} :: Suits(freq, other, max, n) ==>
         BlockBits(freq, lens, d, n) <= BlockBits(freq, other, d, n)
  }

  ghost function ExtraBits(freq: seq<int>, d: Desc, n: nat): int
    requires n <= |freq|
  {
    if n == 0 then 0 else ExtraBits(freq, d, n - 1) + freq[n - 1] * XBits(d, n - 1)
  }

  /** The symbols that occur are the live ones. */
  ghost predicate Occur(freq: seq<int>, live: seq<bool>, f: seq<int>, n: nat) {
    && n <= |freq| && n <= |live| && n <= |f|
    && forall y {:trigger freq[y]} {:trigger live[y]} {:trigger f[y]} :: 0 <= y < n ==>
         f[y] == freq[y] && (live[y] <==> freq[y] != 0)
  }

  lemma {:induction false} BitsAreCost(freq: seq<int>, live: seq<bool>, f: seq<int>, lens: seq<int>, d: Desc, n: nat)
    requires Occur(freq, live, f, n) && n <= |lens|
    ensures BlockBits(freq, lens, d, n) == O.Cost(live[..n], f, lens) + ExtraBits(freq, d, n)
    decreases n
  {
    if n == 0 {
      assert O.Terms(live[..0], f, lens) == [];
    } else {
      BitsAreCost(freq, live, f, lens, d, n - 1);
      var v := f[n - 1] * lens[n - 1];
      assert freq[n - 1] == f[n - 1];
      var t := O.Terms(live[..n - 1], f, lens);
      O.AllMore(t, if live[n - 1] then v else 0);
      assert O.Terms(live[..n], f, lens) == t + [if live[n - 1] then v else 0];
      O.Spread(freq[n - 1], lens[n - 1], XBits(d, n - 1));
      hide O.All, XBits;
    }
  }

  lemma {:induction false} RoomOfOccurring(freq: seq<int>, live: seq<bool>, f: seq<int>, lens: seq<int>, max: nat,
    n: nat)
    requires Occur(freq, live, f, n) && n <= |lens|
    ensures OccurringRoom(freq, lens, max, n) == O.Room(live[..n], lens, max)
    decreases n
  {
    if n == 0 {
      assert O.Shares(live[..0], lens, max) == [];
    } else {
      RoomOfOccurring(freq, live, f, lens, max, n - 1);
      assert freq[n - 1] == f[n - 1];
      var v := if live[n - 1] then O.ShareOf(lens[n - 1], max) else 0;
      var t := O.Shares(live[..n - 1], lens, max);
      O.AllMore(t, v);
      assert O.Shares(live[..n], lens, max) == t + [v];
      hide O.All;
    }
  }

  /** What costs the least costs the fewest bits. */
  lemma CheapestFrom(freq: seq<int>, live: seq<bool>, f: seq<int>, lens: seq<int>, d: Desc, n: nat)
    requires Occur(freq, live, f, n) && n == |live| && n <= |lens| && O.AtLeast(live, f, O.Cost(live, f, lens))
    ensures Cheapest(freq, lens, d, n)
  {
    hide OccurringRoom, BlockBits, O.Room, O.Cost;
    assert live[..n] == live;
    BitsAreCost(freq, live, f, lens, d, n);
    forall other: seq<int>, max: nat {:trigger Suits(freq, other, max, n)} | Suits(freq, other, max, n)
      ensures BlockBits(freq, lens, d, n) <= BlockBits(freq, other, d, n)
    {
      BitsAreCost(freq, live, f, other, d, n);
      RoomOfOccurring(freq, live, f, other, max, n);
      forall x {:trigger live[x]} | 0 <= x < |live| && live[x] ensures 0 <= other[x] <= max { assert freq[x] != 0; }
      assert O.Fits(live, other, max);
    }
  }

  /** One bit for each is the least there is. */
  lemma OnesCheapest(freq: seq<int>, lens: seq<int>, d: Desc, n: nat)
    requires n <= |freq| && n <= |lens| && forall y {:trigger lens[y]} :: 0 <= y < n && freq[y] != 0 ==> lens[y] == 1
    requires forall y {:trigger freq[y]} :: 0 <= y < n ==> freq[y] >= 0
    ensures Cheapest(freq, lens, d, n)
  {
    forall other: seq<int>, max: nat {:trigger Suits(freq, other, max, n)} | Suits(freq, other, max, n)
      ensures BlockBits(freq, lens, d, n) <= BlockBits(freq, other, d, n)
    {
      NoShorter(freq, lens, other, d, n);
    }
  }

  lemma {:induction false} NoShorter(freq: seq<int>, lens: seq<int>, other: seq<int>, d: Desc, n: nat)
    requires n <= |freq| && n <= |lens| && n <= |other| && forall y {:trigger freq[y]} :: 0 <= y < n ==> freq[y] >= 0
    requires forall y {:trigger lens[y]} :: 0 <= y < n && freq[y] != 0 ==> lens[y] == 1
    requires forall y {:trigger other[y]} :: 0 <= y < n && freq[y] != 0 ==> 1 <= other[y]
    ensures BlockBits(freq, lens, d, n) <= BlockBits(freq, other, d, n)
    decreases n
  {
    if n > 0 {
      NoShorter(freq, lens, other, d, n - 1);
      assert freq[n - 1] >= 0 && (freq[n - 1] != 0 ==> lens[n - 1] == 1 && 1 <= other[n - 1]);
      if freq[n - 1] != 0 {
        O.Lesser(freq[n - 1], lens[n - 1] + XBits(d, n - 1), other[n - 1] + XBits(d, n - 1));
      }
      hide XBits;
    }
  }

  // ----- lengths that are too long ----------------------------------------------------------------------------------

  /** The root weighs all there is. */
  lemma {:induction false} OnlyTop(f: seq<int>, pos: seq<int>, N: nat, n: nat)
    requires n <= N + 1 && N < |f| && N < |pos| && pos[N] == -1 && forall t {:trigger pos[t]} ::
      0 <= t < N ==> pos[t] != -1
    ensures TopSum(f, pos, n) == if n == N + 1 then f[N] else 0
  {
    if n > 0 { OnlyTop(f, pos, N, n - 1); }
  }

  /** Lengths as the first pass leaves them: none longer than max, and none cut short below place i. */
  ghost predicate CutFrom(L: seq<int>, heap: seq<int>, S: int, N: int, max: nat, i: int) {
    && 0 <= N < |L| && L[N] == 0 && 0 <= S && S < i <= |heap|
    && forall j {:trigger heap[j]} :: S < j < i ==>
         0 <= heap[j] < N && 0 <= DadAt(N, S, j) <= N && L[heap[j]] == L[DadAt(N, S, j)] + 1
  }

  /** When a length is cut to max, the whole weighs the Fibonacci number max + 3. */
  lemma CutIsHeavy(heap: seq<int>, S: int, elems: int, N: int, pos: seq<int>, f: seq<int>, L: seq<int>, max: nat,
    i: int)
    requires Listed(heap, S, elems, N, pos) && AllSorted(f, heap, S, elems, N) && CutFrom(L, heap, S, N, max, i)
    requires i < HEAP_SIZE && 0 <= DadAt(N, S, i) <= N && L[DadAt(N, S, i)] >= max
    requires forall y {:trigger f[y]} :: 0 <= y < elems && y < |pos| && pos[y] > S && y < |f| ==> f[y] >= 1
    ensures N < |f| && f[N] >= HuffmanTree.Fib(max + 3)
  {
    hide *;
    ListedSizes(heap, S, elems, N, pos);
    AllSortedSizes(f, heap, S, elems, N);
    var g := f[..N + 1];
    SortedFront(f, g, heap, S, elems, N);
    ListedTree(heap, S, elems, N, pos, g);
    ListedHeavier(heap, S, elems, N, pos, g);
    CutSizes(L, heap, S, N, max, i);
    CutNode(heap, S, elems, N, pos, i);
    var x, par, dep := heap[i], Fathers(pos, S, elems, N), L[..N + 1];
    CutDeep(heap, S, elems, N, pos, L, max, i);
    FrontListed(f, g, pos, S, elems, N, heap);
    O.DeepHeavy(elems, N, par, Sons(heap, elems, N, 0), Sons(heap, elems, N, 1), g, dep, x);
    HuffmanTree.FibGrows(max + 3, dep[par[x]] + 3);
  }

  lemma CutSizes(L: seq<int>, heap: seq<int>, S: int, N: int, max: nat, i: int)
    requires CutFrom(L, heap, S, N, max, i)
    ensures 0 <= N < |L| && 0 <= S < i <= |heap|
  {
  }

  lemma CutNode(heap: seq<int>, S: int, elems: int, N: int, pos: seq<int>, i: int)
    requires Listed(heap, S, elems, N, pos) && S < i < HEAP_SIZE
    ensures 0 <= heap[i] < N < |pos| && pos[heap[i]] == i && Fathers(pos, S, elems, N)[heap[i]] == DadAt(N, S, i)
    ensures elems <= DadAt(N, S, i) <= N
  {
    DadsSame(heap, S, elems, N, pos, i);
    DadIs(elems, i, N, S);
    hide DadAt, DadUp;
  }

  lemma CutDeep(heap: seq<int>, S: int, elems: int, N: int, pos: seq<int>, L: seq<int>, max: nat, i: int)
    requires Listed(heap, S, elems, N, pos) && CutFrom(L, heap, S, N, max, i) && i < HEAP_SIZE
    requires 0 <= DadAt(N, S, i) <= N < |L| && 0 <= N < |pos|
    ensures O.DeepAbove(N, Fathers(pos, S, elems, N), L[..N + 1], DadAt(N, S, i))
  {
    hide Listed, SonAt, DadAt, DadUp;
    ListedSizes(heap, S, elems, N, pos);
    var par, dep, p := Fathers(pos, S, elems, N), L[..N + 1], DadAt(N, S, i);
    forall x {:trigger dep[x]} {:trigger par[x]} | p <= x < N && 0 <= par[x] <= N ensures dep[x] == dep[par[x]] + 1 {
      PlaceAt(heap, S, elems, N, pos, x);
      DadsSame(heap, S, elems, N, pos, pos[x]);
      DadsSame(heap, S, elems, N, pos, i);
      AboveBefore(elems, pos[x], i, x);
      assert heap[pos[x]] == x;
    }
  }

  /** What is joined above place i is listed before it. */
  lemma AboveBefore(elems: int, j: int, i: int, x: int)
    requires DadUp(elems, i) <= x < DadUp(elems, j)
    ensures j < i
  {
  }

  lemma FrontListed(f: seq<int>, g: seq<int>, pos: seq<int>, S: int, elems: int, N: int, heap: seq<int>)
    requires Listed(heap, S, elems, N, pos) && N < |f| && 0 <= N && g == f[..N + 1]
    requires forall y {:trigger f[y]} :: 0 <= y < elems && y < |pos| && pos[y] > S && y < |f| ==> f[y] >= 1
    ensures 0 <= elems <= N < |pos|
    ensures forall y {:trigger g[y]} :: 0 <= y < elems && Fathers(pos, S, elems, N)[y] >= 0 ==> g[y] >= 1
  {
    ListedSizes(heap, S, elems, N, pos);
    hide Listed, DadUp;
    forall y {:trigger g[y]} | 0 <= y < elems && Fathers(pos, S, elems, N)[y] >= 0 ensures g[y] >= 1 {
      assert g[y] == f[y];
    }
  }

  // ----- what the whole tree gives ----------------------------------------------------------------------------------

  /** The weights of the tree are known: none wrapped, and each symbol listed occurs. */
  ghost predicate Weighed(f: seq<int>, heap: seq<int>, S: int, elems: int, N: int, pos: seq<int>) {
    && AllSorted(f, heap, S, elems, N) && 0 <= elems <= N < |pos|
    && forall y {:trigger f[y]} {:trigger pos[y]} :: 0 <= y < elems ==> (pos[y] > S <==> f[y] != 0)
  }

  /** With no length cut the depths are the cheapest lengths. */
  lemma UncutCheapest(f: seq<int>, heap: seq<int>, S: int, elems: int, N: int, pos: seq<int>, L: seq<int>, d: Desc)
    requires Listed(heap, S, elems, N, pos) && Weighed(f, heap, S, elems, N, pos) && Unclamped(L, heap, S, N)
    ensures 1 <= elems && Cheapest(f, L, d, elems)
  {
    hide *;
    ListedSizes(heap, S, elems, N, pos);
    WeighedParts(f, heap, S, elems, N, pos);
    DepthsLeast(heap, S, elems, N, pos, f, L);
    var live, g, lens := ListedSymbols(pos, S, elems), f[..N + 1], L[..N + 1];
    LiveOccur(f, heap, S, elems, N, pos);
    CheapestFrom(f, live, g, lens, d, elems);
    CheapestLonger(f, lens, L, d, elems);
  }

  lemma WeighedParts(f: seq<int>, heap: seq<int>, S: int, elems: int, N: int, pos: seq<int>)
    requires Weighed(f, heap, S, elems, N, pos)
    ensures AllSorted(f, heap, S, elems, N) && 0 <= elems <= N < |pos| && N < |f|
    ensures forall y {:trigger f[y]} :: 0 <= y < elems && y < |pos| && pos[y] > S && y < |f| ==> f[y] >= 1
  {
    hide FatherAt;
    forall y {:trigger f[y]} | 0 <= y < elems && pos[y] > S ensures f[y] >= 1 { assert f[y] >= 0 && f[y] != 0; }
  }

  lemma LiveOccur(f: seq<int>, heap: seq<int>, S: int, elems: int, N: int, pos: seq<int>)
    requires Weighed(f, heap, S, elems, N, pos)
    ensures 0 <= elems <= N < |pos| && N < |f| && Occur(f, ListedSymbols(pos, S, elems), f[..N + 1], elems)
  {
    hide FatherAt;
    var live := ListedSymbols(pos, S, elems);
    forall y {:trigger f[y]} {:trigger live[y]} {:trigger f[..N + 1][y]} | 0 <= y < elems
      ensures f[..N + 1][y] == f[y] && (live[y] <==> f[y] != 0)
    {
    }
  }

  lemma CheapestLonger(f: seq<int>, lens: seq<int>, L: seq<int>, d: Desc, n: nat)
    requires Cheapest(f, lens, d, n) && |lens| <= |L| && L[..|lens|] == lens
    ensures Cheapest(f, L, d, n)
  {
    forall y {:trigger L[y]} | 0 <= y < n ensures L[y] == lens[y] { assert L[..|lens|][y] == L[y]; }
    SameLengths(f, lens, L, d, n);
    hide Suits, BlockBits;
  }

  lemma {:induction false} SameLengths(f: seq<int>, lens: seq<int>, L: seq<int>, d: Desc, n: nat)
    requires n <= |f| && n <= |lens| && n <= |L| && forall y {:trigger L[y]} :: 0 <= y < n ==> L[y] == lens[y]
    ensures BlockBits(f, L, d, n) == BlockBits(f, lens, d, n)
    decreases n
  {
    hide XBits;
    if n > 0 { SameLengths(f, lens, L, d, n - 1); }
  }

  /** The same frequencies, as far as there are symbols. */
  lemma CheapestSame(f: seq<int>, g: seq<int>, lens: seq<int>, d: Desc, n: nat)
    requires Cheapest(f, lens, d, n) && n <= |g| && forall y {:trigger g[y]} :: 0 <= y < n ==> g[y] == f[y]
    ensures Cheapest(g, lens, d, n)
  {
    hide BlockBits, OccurringRoom;
    SameBits(f, g, lens, d, n);
    forall other: seq<int>, max: nat {:trigger Suits(g, other, max, n)} | Suits(g, other, max, n)
      ensures BlockBits(g, lens, d, n) <= BlockBits(g, other, d, n)
    {
      SameBits(f, g, other, d, n);
      SameRoom(f, g, other, max, n);
      forall y {:trigger other[y]} | 0 <= y < n && f[y] != 0 ensures 1 <= other[y] <= max { assert g[y] == f[y]; }
      assert Suits(f, other, max, n);
    }
  }

  lemma {:induction false} SameRoom(f: seq<int>, g: seq<int>, lens: seq<int>, max: nat, n: nat)
    requires n <= |f| && n <= |g| && n <= |lens| && forall y {:trigger g[y]} :: 0 <= y < n ==> g[y] == f[y]
    ensures OccurringRoom(f, lens, max, n) == OccurringRoom(g, lens, max, n)
    decreases n
  {
    hide Pow2;
    if n > 0 {
      SameRoom(f, g, lens, max, n - 1);
      assert g[n - 1] == f[n - 1];
    }
  }

  /** All frequencies together. */
  ghost function AllFreq(freq: seq<int>, n: nat): int
    requires n <= |freq|
  {
    if n == 0 then 0 else AllFreq(freq, n - 1) + freq[n - 1]
  }

  lemma {:induction false} AllAreTops(freq: seq<int>, now: seq<int>, pos: seq<int>, n: nat)
    requires n <= |freq| && n <= |now| && n <= |pos|
    requires forall y {:trigger now[y]} :: 0 <= y < n ==> now[y] == freq[y] && (pos[y] == -1 || now[y] == 0)
    ensures TopSum(now, pos, n) == AllFreq(freq, n)
    decreases n
  {
    if n > 0 {
      AllAreTops(freq, now, pos, n - 1);
      assert now[n - 1] == freq[n - 1];
    }
  }
}
