/**
 How deflate's tree grows in the heap array (dep/zlib/trees.c:639-690): the nodes not yet joined are in its front, those
 joined are listed at its back in the order they were taken.
 */
module FlateTree {
  import opened BitLengths
  import opened HuffmanHeap

  const L_CODES := 286

  /** The father of the node listed at i: the joins are numbered from elems on, two nodes each from the back. */
  function DadUp(elems: int, i: int): int {
    elems + (HEAP_SIZE - 1 - i) / 2
  }

  /** The nodes not joined: pos is -1 for them, -2 for a symbol that does not occur. */
  ghost function Tops(pos: seq<int>, N: int): set<int> {
    set y | 0 <= y <= N && y < |pos| && pos[y] == -1
  }

  /** What is listed at the back, and what pos says of the nodes. */
  ghost predicate Back(heap: seq<int>, heapMax: int, dl: seq<int>, elems: int, N: int, pos: seq<int>) {
    && |heap| == HEAP_SIZE == |pos| && 1 <= elems <= N + 1 && N < |dl| && N < HEAP_SIZE && 0 <= heapMax
    && (forall i {:trigger heap[i]} :: heapMax <= i < HEAP_SIZE ==>
         0 <= heap[i] < DadUp(elems, i) <= N && pos[heap[i]] == i && dl[heap[i]] == DadUp(elems, i))
    && (forall y {:trigger pos[y]} :: 0 <= y <= N && pos[y] >= 0 ==> heapMax <= pos[y] < HEAP_SIZE && heap[pos[y]] == y)
    && (forall y {:trigger pos[y]} :: elems <= y <= N ==> pos[y] >= -1)
    && (forall y {:trigger pos[y]} :: 0 <= y < elems ==> pos[y] >= -2)
    && (forall y {:trigger pos[y]} :: 0 <= y < elems && pos[y] < -1 ==> dl[y] == 0)
    && (N >= elems ==> pos[N] == -1)
  }

  /** N is the last node made; k symbols occur. */
  ghost predicate Growing(heap: seq<int>, heapLen: int, heapMax: int, dl: seq<int>, elems: int, N: int, pos: seq<int>,
                          k: int) {
    && Back(heap, heapMax, dl, elems, N, pos) && k <= elems <= L_CODES
    && 1 <= heapLen == k - (N - elems + 1) && heapMax == HEAP_SIZE - 2 * (N - elems + 1)
    && Contents(heap, heapLen) == multiset(Tops(pos, N))
  }

  lemma GrowingSizes(heap: seq<int>, heapLen: int, heapMax: int, dl: seq<int>, elems: int, N: int, pos: seq<int>,
                     k: int)
    requires Growing(heap, heapLen, heapMax, dl, elems, N, pos, k)
    ensures |heap| == HEAP_SIZE == |pos| && 1 <= elems <= N + 1 && N < |dl| && 1 <= heapLen
      && heapLen + 1 < heapMax <= HEAP_SIZE
    ensures heapLen == k - (N - elems + 1) && k <= elems <= L_CODES && heapMax == HEAP_SIZE - 2 * (N - elems + 1)
  {
    hide Contents;
  }

  /** What is in the heap is not joined. */
  lemma InHeap(heap: seq<int>, heapLen: int, heapMax: int, dl: seq<int>, elems: int, N: int, pos: seq<int>, k: int,
               n: int)
    requires Growing(heap, heapLen, heapMax, dl, elems, N, pos, k) && n in Contents(heap, heapLen)
    ensures 0 <= n <= N && pos[n] == -1 && Contents(heap, heapLen)[n] == 1
  {
  }

  /** n and m are listed and get node N + 1 for their father, which takes their place. */
  lemma Joined(heap: seq<int>, heapLen: int, heapMax: int, dl: seq<int>, elems: int, N: int, pos: seq<int>, k: int,
               n: int, m: int,
               heap': seq<int>, dl': seq<int>, pos': seq<int>)
    requires Growing(heap, heapLen, heapMax, dl, elems, N, pos, k) && heapLen >= 2 && N + 1 < |dl| && N + 1 < HEAP_SIZE
    requires n in Contents(heap, heapLen) && m in Contents(heap, heapLen) - multiset{n}
    requires |heap'| == |heap| && heap'[heapMax - 1] == n && heap'[heapMax - 2] == m && forall i {:trigger heap'[i]} ::
      heapMax <= i < HEAP_SIZE ==> heap'[i] == heap[i]
    requires Contents(heap', heapLen - 1) == Contents(heap, heapLen) - multiset{n} - multiset{m} + multiset{N + 1}
    requires 0 <= n < |dl| && 0 <= m < |dl| && n < |pos| && m < |pos|
    requires dl' == dl[n := N + 1][m := N + 1] && pos' == pos[n := heapMax - 1][m := heapMax - 2][N + 1 := -1]
    ensures Growing(heap', heapLen - 1, heapMax - 2, dl', elems, N + 1, pos', k)
  {
    hide *;
    InHeap(heap, heapLen, heapMax, dl, elems, N, pos, k, n);
    InHeap(heap, heapLen, heapMax, dl, elems, N, pos, k, m);
    GrowingSizes(heap, heapLen, heapMax, dl, elems, N, pos, k);
    GrowingParts(heap, heapLen, heapMax, dl, elems, N, pos, k);
    TopsJoined(pos, N, n, m, heapMax);
    BackJoined(heap, heapMax, dl, elems, N, pos, n, m, heap', dl', pos');
    GrowingAgain(heap', heapLen - 1, heapMax - 2, dl', elems, N + 1, pos', k);
  }

  lemma GrowingParts(heap: seq<int>, heapLen: int, heapMax: int, dl: seq<int>, elems: int, N: int, pos: seq<int>,
                     k: int)
    requires Growing(heap, heapLen, heapMax, dl, elems, N, pos, k)
    ensures Back(heap, heapMax, dl, elems, N, pos) && Contents(heap, heapLen) == multiset(Tops(pos, N))
  {
  }

  lemma GrowingAgain(heap: seq<int>, heapLen: int, heapMax: int, dl: seq<int>, elems: int, N: int, pos: seq<int>,
                     k: int)
    requires Back(heap, heapMax, dl, elems, N, pos) && k <= elems <= L_CODES && 1 <= heapLen == k - (N - elems + 1)
      && heapMax == HEAP_SIZE - 2 * (N - elems + 1)
    requires Contents(heap, heapLen) == multiset(Tops(pos, N))
    ensures Growing(heap, heapLen, heapMax, dl, elems, N, pos, k)
  {
  }

  lemma TopsJoined(pos: seq<int>, N: int, n: int, m: int, at: int)
    requires 0 <= n <= N && 0 <= m <= N && n != m && N + 1 < |pos| && pos[n] == pos[m] == -1 && at >= 2
    ensures multiset(Tops(pos[n := at - 1][m := at - 2][N + 1 := -1], N + 1))
      == multiset(Tops(pos, N)) - multiset{n} - multiset{m} + multiset{N + 1}
  {
    assert Tops(pos[n := at - 1][m := at - 2][N + 1 := -1], N + 1) == Tops(pos, N) - {n} - {m} + {N + 1};
  }

  lemma BackJoined(heap: seq<int>, heapMax: int, dl: seq<int>, elems: int, N: int, pos: seq<int>, n: int, m: int,
                   heap': seq<int>, dl': seq<int>, pos': seq<int>)
    requires Back(heap, heapMax, dl, elems, N, pos) && N + 1 < |dl| && N + 1 < HEAP_SIZE
      && heapMax == HEAP_SIZE - 2 * (N - elems + 1) && heapMax >= 2
    requires 0 <= n <= N && 0 <= m <= N && n != m && pos[n] == pos[m] == -1
    requires |heap'| == |heap| && heap'[heapMax - 1] == n && heap'[heapMax - 2] == m && forall i {:trigger heap'[i]} ::
      heapMax <= i < HEAP_SIZE ==> heap'[i] == heap[i]
    requires dl' == dl[n := N + 1][m := N + 1] && pos' == pos[n := heapMax - 1][m := heapMax - 2][N + 1 := -1]
    ensures Back(heap', heapMax - 2, dl', elems, N + 1, pos')
  {
    hide DadUp;
    BackNodes(heap, heapMax, dl, elems, N, pos, n, m, heap', pos');
    BackPlaces(heap, heapMax, dl, elems, N, pos, n, m, heap', dl', pos');
    assert |pos'| == |pos| && |dl'| == |dl| && pos'[N + 1] == -1;
    forall y {:trigger pos'[y]} | elems <= y <= N + 1 ensures pos'[y] >= -1 {
      if y <= N && y != n && y != m { assert pos'[y] == pos[y]; }
    }
    forall y {:trigger pos'[y]} | 0 <= y < elems ensures pos'[y] >= -2 {
      if y != n && y != m { assert pos'[y] == pos[y]; }
    }
    forall y {:trigger pos'[y]} | 0 <= y < elems && pos'[y] < -1 ensures dl'[y] == 0 {
      if y != n && y != m { assert pos'[y] == pos[y] && dl'[y] == dl[y]; }
    }
  }

  lemma BackNodes(heap: seq<int>, heapMax: int, dl: seq<int>, elems: int, N: int, pos: seq<int>, n: int, m: int,
                  heap': seq<int>, pos': seq<int>)
    requires Back(heap, heapMax, dl, elems, N, pos) && N + 1 < HEAP_SIZE && 2 <= heapMax <= HEAP_SIZE && 0 <= n <= N
      && 0 <= m <= N && n != m
    requires |heap'| == |heap| && heap'[heapMax - 1] == n && heap'[heapMax - 2] == m && forall i {:trigger heap'[i]} ::
      heapMax <= i < HEAP_SIZE ==> heap'[i] == heap[i]
    requires pos' == pos[n := heapMax - 1][m := heapMax - 2][N + 1 := -1]
    ensures forall y {:trigger pos'[y]} :: 0 <= y <= N + 1 && pos'[y] >= 0 ==>
      heapMax - 2 <= pos'[y] < HEAP_SIZE && heap'[pos'[y]] == y
  {
    forall y {:trigger pos'[y]} | 0 <= y <= N + 1 && pos'[y] >= 0
      ensures heapMax - 2 <= pos'[y] < HEAP_SIZE && heap'[pos'[y]] == y
    {
      if y != n && y != m { assert pos'[y] == pos[y] && heap[pos[y]] == y; }
    }
  }

  lemma BackPlaces(heap: seq<int>, heapMax: int, dl: seq<int>, elems: int, N: int, pos: seq<int>, n: int, m: int,
                   heap': seq<int>, dl': seq<int>, pos': seq<int>)
    requires Back(heap, heapMax, dl, elems, N, pos) && N + 1 < |dl| && N + 1 < HEAP_SIZE
      && heapMax == HEAP_SIZE - 2 * (N - elems + 1) && heapMax >= 2
    requires 0 <= n <= N && 0 <= m <= N && n != m && pos[n] == pos[m] == -1
    requires |heap'| == |heap| && heap'[heapMax - 1] == n && heap'[heapMax - 2] == m && forall i {:trigger heap'[i]} ::
      heapMax <= i < HEAP_SIZE ==> heap'[i] == heap[i]
    requires dl' == dl[n := N + 1][m := N + 1] && pos' == pos[n := heapMax - 1][m := heapMax - 2][N + 1 := -1]
    ensures forall i {:trigger heap'[i]} :: heapMax - 2 <= i < HEAP_SIZE ==>
      0 <= heap'[i] < DadUp(elems, i) <= N + 1 && pos'[heap'[i]] == i && dl'[heap'[i]] == DadUp(elems, i)
  {
    assert DadUp(elems, heapMax - 1) == N + 1 == DadUp(elems, heapMax - 2);
    hide DadUp;
    forall i {:trigger heap'[i]} | heapMax - 2 <= i < HEAP_SIZE
      ensures 0 <= heap'[i] < DadUp(elems, i) <= N + 1 && pos'[heap'[i]] == i && dl'[heap'[i]] == DadUp(elems, i)
    {
      if i >= heapMax {
        OldPlace(heap, heapMax, dl, elems, N, pos, n, m, i);
        assert heap'[i] == heap[i];
      } else {
        assert i == heapMax - 1 || i == heapMax - 2;
      }
    }
  }

  lemma OldPlace(heap: seq<int>, heapMax: int, dl: seq<int>, elems: int, N: int, pos: seq<int>, n: int, m: int, i: int)
    requires Back(heap, heapMax, dl, elems, N, pos) && heapMax <= i < HEAP_SIZE && 0 <= n <= N && 0 <= m <= N
      && pos[n] == pos[m] == -1
    ensures 0 <= heap[i] < DadUp(elems, i) <= N && heap[i] != n && heap[i] != m && pos[heap[i]] == i
      && dl[heap[i]] == DadUp(elems, i)
  {
  }

  /** With one node left, it is the last made, and the list is whole. */
  lemma Grown(heap: seq<int>, heapMax: int, dl: seq<int>, elems: int, N: int, pos: seq<int>, k: int)
    requires Growing(heap, 1, heapMax, dl, elems, N, pos, k) && k >= 2
    ensures 0 < heapMax && heap[1] == N && Listed(heap[heapMax - 1 := N], heapMax - 1, elems, N, pos) && N < |dl|
    ensures forall i {:trigger heap[i]} :: heapMax <= i < HEAP_SIZE ==>
      0 <= heap[i] < |dl| && dl[heap[i]] == DadAt(N, heapMax - 1, i)
    ensures forall t {:trigger pos[t]} :: 0 <= t < N ==> pos[t] != -1
  {
    hide Contents, Tops;
    OnlyLast(heap, heapMax, dl, elems, N, pos, k);
    var S := heapMax - 1;
    forall i | heapMax <= i < HEAP_SIZE ensures DadAt(N, S, i) == DadUp(elems, i) { SameDad(elems, N, S, i); }
  }

  lemma SameDad(elems: int, N: int, S: int, i: int)
    requires S < i < HEAP_SIZE && HEAP_SIZE - S - 1 == 2 * (N - elems + 1)
    ensures DadAt(N, S, i) == DadUp(elems, i)
  {
  }

  lemma OnlyLast(heap: seq<int>, heapMax: int, dl: seq<int>, elems: int, N: int, pos: seq<int>, k: int)
    requires Growing(heap, 1, heapMax, dl, elems, N, pos, k) && k >= 2
    ensures heap[1] == N && forall t {:trigger pos[t]} :: 0 <= t < N ==> pos[t] != -1
  {
    var tops := Tops(pos, N);
    assert heap[1..2] == [heap[1]];
    assert multiset(tops) == multiset{heap[1]};
    assert N in tops;
    Single(tops, heap[1], N);
    forall t {:trigger pos[t]} | 0 <= t < N ensures pos[t] != -1 {
      if t in tops { Single(tops, heap[1], t); }
    }
  }

  lemma Single(s: set<int>, x: int, y: int)
    requires multiset(s) == multiset{x} && y in s
    ensures y == x
  {
    assert y in multiset(s);
  }

  // ----- the first nodes ---------------------------------------------------------------------------------------------

  /** The heap while symbols are put into it: they are the ones marked. */
  ghost predicate Filling(heap: seq<int>, heapLen: int, pos: seq<int>, elems: int, maxCode: int) {
    && |heap| == HEAP_SIZE == |pos| && 1 <= elems <= L_CODES && 0 <= heapLen < HEAP_SIZE && -1 <= maxCode < elems
    && Contents(heap, heapLen) == multiset(Tops(pos, elems - 1))
    && (forall y {:trigger pos[y]} :: 0 <= y < HEAP_SIZE ==> pos[y] == -2 || (pos[y] == -1 && y <= maxCode))
    && (heapLen == 0 ==> maxCode == -1) && (heapLen > 0 ==> maxCode >= 0)
    && (heapLen == 1 ==> forall y {:trigger pos[y]} :: 0 <= y < HEAP_SIZE && y != maxCode ==> pos[y] == -2)
  }

  lemma FillingStarts(heap: seq<int>, elems: int, pos: seq<int>)
    requires |heap| == HEAP_SIZE == |pos| && 1 <= elems <= L_CODES && forall y {:trigger pos[y]} ::
      0 <= y < HEAP_SIZE ==> pos[y] == -2
    ensures Filling(heap, 0, pos, elems, -1)
  {
    assert heap[1..1] == [];
    assert Tops(pos, elems - 1) == {};
  }

  lemma FillingSizes(heap: seq<int>, heapLen: int, pos: seq<int>, elems: int, maxCode: int)
    requires Filling(heap, heapLen, pos, elems, maxCode)
    ensures |heap| == HEAP_SIZE == |pos| && 1 <= elems <= L_CODES && 0 <= heapLen <= elems && -1 <= maxCode < elems
    ensures (heapLen == 0 ==> maxCode == -1) && (heapLen > 0 ==> maxCode >= 0)
    ensures forall y {:trigger pos[y]} :: 0 <= y < HEAP_SIZE ==> pos[y] == -2 || (pos[y] == -1 && y <= maxCode)
    ensures heapLen == 1 ==> forall y {:trigger pos[y]} :: 0 <= y < HEAP_SIZE && y != maxCode ==> pos[y] == -2
  {
    TopsFew(pos, elems - 1);
    assert |Contents(heap, heapLen)| == heapLen;
    assert |multiset(Tops(pos, elems - 1))| == |Tops(pos, elems - 1)|;
  }

  lemma {:induction false} TopsFew(pos: seq<int>, n: int)
    requires -1 <= n
    ensures |Tops(pos, n)| <= n + 1
    decreases n
  {
    if n >= 0 {
      TopsFew(pos, n - 1);
      assert Tops(pos, n) == Tops(pos, n - 1) + if n < |pos| && pos[n] == -1 then {n} else {};
    } else {
      assert Tops(pos, n) == {};
    }
  }

  lemma OneMoreTop(heap: seq<int>, heapLen: int, pos: seq<int>, elems: int, maxCode: int, y: int, maxCode': int)
    requires Filling(heap, heapLen, pos, elems, maxCode) && 0 <= y < elems && pos[y] == -2 && heapLen + 1 < HEAP_SIZE
    requires maxCode' == if y > maxCode then y else maxCode
    ensures Filling(heap[heapLen + 1 := y], heapLen + 1, pos[y := -1], elems, maxCode')
  {
    hide Tops, Contents;
    ContentsMore(heap, heapLen, pos, elems, y);
    var pos' := pos[y := -1];
    forall x {:trigger pos'[x]} | 0 <= x < HEAP_SIZE ensures pos'[x] == -2 || (pos'[x] == -1 && x <= maxCode') {
      if x != y { assert pos'[x] == pos[x]; }
    }
    forall x {:trigger pos'[x]} | 0 <= x < HEAP_SIZE && heapLen == 0 && x != maxCode' ensures pos'[x] == -2 {
      if x != y { assert pos'[x] == pos[x]; }
    }
  }

  lemma ContentsMore(heap: seq<int>, heapLen: int, pos: seq<int>, elems: int, y: int)
    requires 0 <= heapLen && heapLen + 1 < |heap| && 0 <= y < elems <= |pos| && pos[y] == -2
      && Contents(heap, heapLen) == multiset(Tops(pos, elems - 1))
    ensures Contents(heap[heapLen + 1 := y], heapLen + 1) == multiset(Tops(pos[y := -1], elems - 1))
  {
    var heap' := heap[heapLen + 1 := y];
    assert heap'[1..heapLen + 2] == heap[1..heapLen + 1] + [y];
    assert Tops(pos[y := -1], elems - 1) == Tops(pos, elems - 1) + {y};
    assert y !in Tops(pos, elems - 1);
  }

  lemma Filled(heap: seq<int>, heapLen: int, pos: seq<int>, elems: int, maxCode: int, dl: seq<int>)
    requires Filling(heap, heapLen, pos, elems, maxCode) && heapLen >= 1 && elems <= |dl|
    requires forall y {:trigger pos[y]} :: 0 <= y < elems && pos[y] < -1 ==> dl[y] == 0
    ensures Growing(heap, heapLen, HEAP_SIZE, dl, elems, elems - 1, pos, heapLen)
  {
    hide Contents, Tops;
    FillingSizes(heap, heapLen, pos, elems, maxCode);
  }

  lemma FrontFits(heap: seq<int>, heapLen: int, heapMax: int, dl: seq<int>, elems: int, N: int, pos: seq<int>, k: int,
                  w: seq<int>)
    requires Growing(heap, heapLen, heapMax, dl, elems, N, pos, k) && |w| == N + 1 && forall x {:trigger w[x]} ::
      0 <= x < |w| ==> w[x] >= 0
    ensures Fits(heap, w, heapLen)
  {
    forall i {:trigger heap[i]} | 1 <= i <= heapLen ensures 0 <= heap[i] < |w| {
      assert heap[i] == heap[1..heapLen + 1][i - 1];
      assert heap[i] in Contents(heap, heapLen);
    }
  }

  /** The front may be rearranged. */
  lemma FrontMoves(heap: seq<int>, heap': seq<int>, heapLen: int, heapMax: int, dl: seq<int>, elems: int, N: int,
                   pos: seq<int>, k: int)
    requires Growing(heap, heapLen, heapMax, dl, elems, N, pos, k) && |heap'| == |heap|
      && Contents(heap', heapLen) == Contents(heap, heapLen)
    requires forall i {:trigger heap'[i]} :: heapLen < i < |heap| ==> heap'[i] == heap[i]
    ensures Growing(heap', heapLen, heapMax, dl, elems, N, pos, k)
  {
    hide *;
    GrowingSizes(heap, heapLen, heapMax, dl, elems, N, pos, k);
    GrowingParts(heap, heapLen, heapMax, dl, elems, N, pos, k);
    BackStays(heap, heap', heapMax, dl, elems, N, pos);
    GrowingAgain(heap', heapLen, heapMax, dl, elems, N, pos, k);
  }

  lemma BackStays(heap: seq<int>, heap': seq<int>, heapMax: int, dl: seq<int>, elems: int, N: int, pos: seq<int>)
    requires Back(heap, heapMax, dl, elems, N, pos) && |heap'| == |heap| && forall i {:trigger heap'[i]} ::
      heapMax <= i < HEAP_SIZE ==> heap'[i] == heap[i]
    ensures Back(heap', heapMax, dl, elems, N, pos)
  {
    hide DadUp;
    forall i {:trigger heap'[i]} | heapMax <= i < HEAP_SIZE
      ensures 0 <= heap'[i] < DadUp(elems, i) <= N && pos[heap'[i]] == i && dl[heap'[i]] == DadUp(elems, i)
    {
      assert heap'[i] == heap[i];
    }
    forall y {:trigger pos[y]} | 0 <= y <= N && pos[y] >= 0
      ensures heapMax <= pos[y] < HEAP_SIZE && heap'[pos[y]] == y
    {
      assert heap'[pos[y]] == heap[pos[y]];
    }
  }
}
