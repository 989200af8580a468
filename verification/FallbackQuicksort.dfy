/**
 The two sorting routines under the fallback block sort of dep/bzip2/blocksort.c: the small-range
 insertion sort and the three-way quicksort that keeps its pending ranges on a fixed stack.
 Both reorder `fmap` so that the classes `eclass[fmap[i]]` ascend.
 */
module FallbackQuicksort {
  import opened Permutations

  const SMALL_THRESH := 10
  const STACK_SIZE := 100

  /** Every entry of the range is an index into the class array. */
  ghost predicate Indexes(f: seq<int>, ec: seq<int>, lo: int, hi: int) {
    0 <= lo <= hi <= |f| && forall i :: lo <= i < hi ==> 0 <= f[i] < |ec|
  }

  /** Classes ascend over [lo, hi). */
  ghost predicate Sorted(f: seq<int>, ec: seq<int>, lo: int, hi: int)
    requires Indexes(f, ec, lo, hi)
  {
    forall i, j :: lo <= i <= j < hi ==> ec[f[i]] <= ec[f[j]]
  }

  ghost predicate Below(f: seq<int>, ec: seq<int>, lo: int, hi: int, bound: int) {
    0 <= lo <= hi <= |f| && forall i :: lo <= i < hi ==> 0 <= f[i] < |ec| && ec[f[i]] < bound
  }

  lemma IndexesAfter(f: seq<int>, g: seq<int>, ec: seq<int>, lo: int, hi: int)
    requires Indexes(f, ec, lo, hi) && Shuffled(f, g, lo, hi)
    ensures Indexes(g, ec, lo, hi)
  {
    ShuffledForall(f, g, lo, hi, v => 0 <= v < |ec|);
  }

  /** Entries a step apart ascend from i on: each of the interleaved chains is in order. */
  ghost predicate StepSorted(f: seq<int>, ec: seq<int>, i: int, hi: int, step: int)
    requires Indexes(f, ec, i, hi)
  {
    forall k, m {:trigger f[k], f[m]} :: i <= k < m < hi && m == k + step ==> ec[f[k]] <= ec[f[m]]
  }

  /** The places i, i + step, ... up to j - step. */
  ghost predicate Chain(chain: set<int>, i: int, j: int, step: int) {
    && i in chain && j - step in chain
    && (forall p {:trigger p in chain} :: p in chain ==> i <= p <= j - step)
    && (forall p, q {:trigger p in chain, q in chain} :: p in chain && q == p - step && p != i ==> q in chain)
    && (forall p, q {:trigger p in chain, q in chain} :: p in chain && q == p + step && p != j - step ==> q in chain)
  }

  /** Along the chain the entries passed, all of smaller class than tmp, are one step down; the hole is at j - step. */
  ghost predicate Slid(f0: seq<int>, f: seq<int>, ec: seq<int>, j: int, step: int, tmp: int, chain: set<int>) {
    && |f| == |f0| && 0 <= tmp < |ec|
    && (forall k {:trigger f[k]} :: 0 <= k < |f| && k !in chain ==> f[k] == f0[k])
    && (forall k, m {:trigger f[k], f0[m]} ::
         0 <= k < |f| && k in chain && k != j - step && m == k + step && k < m < |f0| ==> f[k] == f0[m])
    && (forall k {:trigger f[k]} :: 0 <= k < |f| && k in chain && k != j - step ==>
         0 <= f[k] < |ec| && ec[f[k]] < ec[tmp])
  }

  /** Half-way through an insertion: the entry tmp is out, and filling its hole would give a shuffle of f0. */
  ghost predicate Pending(f0: seq<int>, f: seq<int>, ec: seq<int>, lo: int, hi: int, i: int, j: int, step: int,
                          tmp: int, chain: set<int>) {
    && 0 <= lo <= i <= j - step < hi <= |f|
    && Shuffled(f0, f[j - step := tmp], lo, hi)
    && Chain(chain, i, j, step) && Slid(f0, f, ec, j, step, tmp, chain)
  }

  lemma PendingStarts(f: seq<int>, ec: seq<int>, lo: int, hi: int, i: int, step: int)
    requires 0 <= lo <= i && 0 < step && i + step < hi <= |f| && 0 <= f[i] < |ec|
    ensures Pending(f, f, ec, lo, hi, i, i + step, step, f[i], {i})
  {
    assert f[i := f[i]] == f;
  }

  lemma PendingSwap(f0: seq<int>, f: seq<int>, lo: int, hi: int, p: int, j: int, tmp: int)
    requires 0 <= lo <= p < j < hi <= |f| == |f0| && Shuffled(f0, f[p := tmp], lo, hi)
    ensures Shuffled(f0, f[p := f[j]][j := tmp], lo, hi)
  {
    hide Shuffled;
    var h := f[p := tmp];
    ShuffledSwap(h, p, j, lo, hi);
    assert h[p := h[j]][j := h[p]] == f[p := f[j]][j := tmp];
    ShuffledTransitive(f0, h, h[p := h[j]][j := h[p]], lo, hi);
  }

  lemma PendingMoves(f0: seq<int>, f: seq<int>, ec: seq<int>, lo: int, hi: int, i: int, j: int, step: int, tmp: int,
                     chain: set<int>)
    requires Pending(f0, f, ec, lo, hi, i, j, step, tmp, chain)
    requires 0 < step && j < hi
    requires 0 <= tmp < |ec| && 0 <= f[j] < |ec| && ec[f[j]] < ec[tmp]
    ensures Pending(f0, f[j - step := f[j]], ec, lo, hi, i, j + step, step, tmp, chain + {j})
    ensures f[j] == f0[j]
  {
    hide Shuffled;
    PendingSwap(f0, f, lo, hi, j - step, j, tmp);
    assert j !in chain;
  }

  lemma PendingEnds(f0: seq<int>, g: seq<int>, f: seq<int>, ec: seq<int>, lo: int, hi: int, i: int, j: int, step: int,
                    tmp: int, chain: set<int>)
    requires Pending(f0, g, ec, lo, hi, i, j, step, tmp, chain) && f == g[j - step := tmp]
    requires Indexes(f0, ec, lo, hi) && f0[i] == tmp && 0 < step
    requires 0 <= tmp < |ec| && (j < hi ==> 0 <= g[j] < |ec| && ec[tmp] <= ec[g[j]])
    ensures Shuffled(f0, f, lo, hi)
    ensures Indexes(f, ec, lo, hi)
    ensures StepSorted(f0, ec, i + 1, hi, step) ==> StepSorted(f, ec, i, hi, step)
  {
    hide Shuffled;
    IndexesAfter(f0, f, ec, lo, hi);
    if StepSorted(f0, ec, i + 1, hi, step) {
      forall k, m {:trigger f[k], f[m]} | i <= k < m < hi && m == k + step ensures ec[f[k]] <= ec[f[m]] {
        InsertedInOrder(f0, g, f, ec, lo, hi, i, j, step, tmp, chain, k);
      }
    }
  }

  /** After the insertion entry k and the one a step further are in order, for each k from i on. */
  lemma InsertedInOrder(f0: seq<int>, g: seq<int>, f: seq<int>, ec: seq<int>, lo: int, hi: int, i: int, j: int,
                        step: int, tmp: int,
                        chain: set<int>, k: int)
    requires 0 <= lo <= i <= j - step < hi <= |g| && Chain(chain, i, j, step) && Slid(f0, g, ec, j, step, tmp, chain)
    requires f == g[j - step := tmp] && 0 < step && Indexes(f0, ec, lo, hi) && Indexes(f, ec, lo, hi)
    requires j < hi ==> 0 <= g[j] < |ec| && ec[tmp] <= ec[g[j]]
    requires i <= k && k + step < hi && StepSorted(f0, ec, i + 1, hi, step)
    ensures ec[f[k]] <= ec[f[k + step]]
  {
    hide Indexes;
    assert f0[k + step] == f0[k + step];
    if k in chain {
      if k == j - step {
        assert k + step !in chain;
      } else {
        assert k + step in chain && f[k] == g[k] == f0[k + step];
        if k + step != j - step {
          assert k + step + step in chain && f[k + step] == g[k + step] == f0[k + step + step];
        }
      }
    } else {
      assert k + step in chain ==> k in chain;
      assert f[k] == g[k] == f0[k] && f[k + step] == g[k + step] == f0[k + step];
    }
  }

  /**
   Insertion of entry i into the chain i+step, i+2*step, ... of the range [lo, hi]: entries of smaller
   class move down by one step.
   */
  method InsertDown(fmap: array<int>, eclass: array<int>, lo: int, hi: int, i: int, step: int)
    requires fmap != eclass
    requires 0 <= lo <= i && 0 < step && i + step <= hi < fmap.Length
    requires Indexes(fmap[..], eclass[..], lo, hi + 1)
    modifies fmap
    ensures Shuffled(old(fmap[..]), fmap[..], lo, hi + 1)
    ensures Indexes(fmap[..], eclass[..], lo, hi + 1)
    ensures old(StepSorted(fmap[..], eclass[..], i + 1, hi + 1, step)) ==>
      StepSorted(fmap[..], eclass[..], i, hi + 1, step)
  {
    hide Shuffled, Pending, StepSorted;
    ghost var f0, ec := fmap[..], eclass[..];
    var tmp := fmap[i];
    var ecTmp := eclass[tmp];
    var j := i + step;
    ghost var chain := {i};
    PendingStarts(f0, ec, lo, hi + 1, i, step);
    while j <= hi && ecTmp > eclass[fmap[j]]
      invariant i + step <= j <= hi + step
      invariant Pending(f0, fmap[..], ec, lo, hi + 1, i, j, step, tmp, chain)
      invariant forall k :: j <= k <= hi ==> fmap[k] == f0[k]
    {
      PendingMoves(f0, fmap[..], ec, lo, hi + 1, i, j, step, tmp, chain);
      fmap[j - step] := fmap[j];
      chain := chain + {j};
      j := j + step;
    }
    ghost var g := fmap[..];
    fmap[j - step] := tmp;
    PendingEnds(f0, g, fmap[..], ec, lo, hi + 1, i, j, step, tmp, chain);
  }

  /** With step 1 there is one chain, the range itself. */
  lemma {:induction false} OneChain(f: seq<int>, ec: seq<int>, lo: int, hi: int)
    requires Indexes(f, ec, lo, hi) && StepSorted(f, ec, lo, hi, 1)
    ensures Sorted(f, ec, lo, hi)
    decreases hi - lo
  {
    if lo + 1 < hi {
      OneChain(f, ec, lo + 1, hi);
      assert ec[f[lo]] <= ec[f[lo + 1]];
    }
  }

  lemma NoPair(f: seq<int>, ec: seq<int>, i: int, hi: int, step: int)
    requires Indexes(f, ec, i, hi) && hi <= i + step
    ensures StepSorted(f, ec, i, hi, step)
  {
  }

  /** Insertion passes with one step over the whole range. */
  method InsertAll(fmap: array<int>, eclass: array<int>, lo: int, hi: int, step: int)
    requires fmap != eclass
    requires 0 <= lo && 0 < step && lo + step <= hi + 1 && hi < fmap.Length
    requires Indexes(fmap[..], eclass[..], lo, hi + 1)
    modifies fmap
    ensures Shuffled(old(fmap[..]), fmap[..], lo, hi + 1)
    ensures Indexes(fmap[..], eclass[..], lo, hi + 1)
    ensures StepSorted(fmap[..], eclass[..], lo, hi + 1, step)
  {
    hide Shuffled, StepSorted;
    ghost var f0 := fmap[..];
    ShuffledReflexive(f0, lo, hi + 1);
    var i := hi - step;
    NoPair(f0, eclass[..], i + 1, hi + 1, step);
    while i >= lo
      invariant lo - 1 <= i <= hi - step
      invariant Shuffled(f0, fmap[..], lo, hi + 1)
      invariant Indexes(fmap[..], eclass[..], lo, hi + 1)
      invariant StepSorted(fmap[..], eclass[..], i + 1, hi + 1, step)
    {
      ghost var f := fmap[..];
      InsertDown(fmap, eclass, lo, hi, i, step);
      ShuffledTransitive(f0, f, fmap[..], lo, hi + 1);
      i := i - 1;
    }
  }

  /** A coarse pass with step 4 when the range has at least five entries, then plain insertion sort. */
  method SimpleSort(fmap: array<int>, eclass: array<int>, lo: int, hi: int)
    requires fmap != eclass
    requires 0 <= lo && lo - 1 <= hi < fmap.Length
    requires Indexes(fmap[..], eclass[..], lo, hi + 1)
    modifies fmap
    ensures Shuffled(old(fmap[..]), fmap[..], lo, hi + 1)
    ensures Indexes(fmap[..], eclass[..], lo, hi + 1)
    ensures Sorted(fmap[..], eclass[..], lo, hi + 1)
  {
    hide Shuffled, StepSorted;
    ghost var f0 := fmap[..];
    ShuffledReflexive(f0, lo, hi + 1);
    if lo == hi { return; }
    if hi - lo > 3 { InsertAll(fmap, eclass, lo, hi, 4); }
    ghost var f := fmap[..];
    if hi >= lo {
      InsertAll(fmap, eclass, lo, hi, 1);
      ShuffledTransitive(f0, f, fmap[..], lo, hi + 1);
      OneChain(fmap[..], eclass[..], lo, hi + 1);
    }
  }

  // ----- three-way partition ----------------------------------------------------------------

  /**
   The partition in progress: [lo, ltLo) equals med, [ltLo, unLo) is below it, (unHi, gtHi] above it,
   (gtHi, hi] equals it, and [unLo, unHi] has not been looked at.
   */
  ghost predicate ThreeWay(f: seq<int>, ec: seq<int>, med: int, lo: int, ltLo: int, unLo: int, unHi: int, gtHi: int,
                           hi: int) {
    && Indexes(f, ec, lo, hi + 1)
    && lo <= ltLo <= unLo <= unHi + 1 <= gtHi + 1 <= hi + 1
    && (forall k :: lo <= k < ltLo ==> ec[f[k]] == med)
    && (forall k :: ltLo <= k < unLo ==> ec[f[k]] < med)
    && (forall k :: unHi < k <= gtHi ==> ec[f[k]] > med)
    && (forall k :: gtHi < k <= hi ==> ec[f[k]] == med)
  }

  /** The outcome: below med up to n, equal to it strictly between n and m, above it from m on. */
  ghost predicate Split(f: seq<int>, ec: seq<int>, med: int, lo: int, n: int, m: int, hi: int) {
    && Indexes(f, ec, lo, hi + 1)
    && lo - 1 <= n < m <= hi + 1
    && (forall k :: lo <= k <= n ==> ec[f[k]] < med)
    && (forall k :: n < k < m ==> ec[f[k]] == med)
    && (forall k :: m <= k <= hi ==> ec[f[k]] > med)
  }

  ghost function Swapped(f: seq<int>, i: int, j: int): seq<int>
    requires 0 <= i < |f| && 0 <= j < |f|
  {
    f[i := f[j]][j := f[i]]
  }

  lemma EqualJoinsLow(f: seq<int>, ec: seq<int>, med: int, lo: int, ltLo: int, unLo: int, unHi: int, gtHi: int, hi: int)
    requires ThreeWay(f, ec, med, lo, ltLo, unLo, unHi, gtHi, hi) && unLo <= unHi
    requires ec[f[unLo]] == med
    ensures ThreeWay(Swapped(f, unLo, ltLo), ec, med, lo, ltLo + 1, unLo + 1, unHi, gtHi, hi)
  {
  }

  lemma EqualJoinsHigh(f: seq<int>, ec: seq<int>, med: int, lo: int, ltLo: int, unLo: int, unHi: int, gtHi: int,
                       hi: int)
    requires ThreeWay(f, ec, med, lo, ltLo, unLo, unHi, gtHi, hi) && unLo <= unHi
    requires ec[f[unHi]] == med
    ensures ThreeWay(Swapped(f, unHi, gtHi), ec, med, lo, ltLo, unLo, unHi - 1, gtHi - 1, hi)
    ensures Swapped(f, unHi, gtHi)[unLo] == f[unLo] || unLo == unHi
  {
  }

  lemma ExchangeJoinsBoth(f: seq<int>, ec: seq<int>, med: int, lo: int, ltLo: int, unLo: int, unHi: int, gtHi: int,
                          hi: int)
    requires ThreeWay(f, ec, med, lo, ltLo, unLo, unHi, gtHi, hi) && unLo <= unHi
    requires ec[f[unHi]] < med < ec[f[unLo]]
    ensures ThreeWay(Swapped(f, unLo, unHi), ec, med, lo, ltLo, unLo + 1, unHi - 1, gtHi, hi)
  {
  }

  lemma ScanBounds(f: seq<int>, ec: seq<int>, med: int, lo: int, ltLo: int, unLo: int, unHi: int, gtHi: int, hi: int)
    requires ThreeWay(f, ec, med, lo, ltLo, unLo, unHi, gtHi, hi)
    ensures 0 <= lo <= ltLo <= unLo <= unHi + 1 <= gtHi + 1 <= hi + 1 <= |f|
    ensures unLo <= unHi ==> 0 <= f[unLo] < |ec| && 0 <= f[unHi] < |ec|
    ensures unLo <= unHi && ec[f[unLo]] < med ==> ThreeWay(f, ec, med, lo, ltLo, unLo + 1, unHi, gtHi, hi)
    ensures unLo <= unHi && ec[f[unHi]] > med ==> ThreeWay(f, ec, med, lo, ltLo, unLo, unHi - 1, gtHi, hi)
  {
  }

  method Swap(fmap: array<int>, i: int, j: int, ghost lo: int, ghost hi: int)
    requires 0 <= lo <= i <= hi < fmap.Length && lo <= j <= hi
    modifies fmap
    ensures fmap[..] == Swapped(old(fmap[..]), i, j)
    ensures Shuffled(old(fmap[..]), fmap[..], lo, hi + 1)
  {
    ShuffledSwap(fmap[..], i, j, lo, hi + 1);
    fmap[i], fmap[j] := fmap[j], fmap[i];
  }

  /** A swap that keeps fmap a shuffle of an earlier f0. */
  method SwapAgain(ghost f0: seq<int>, fmap: array<int>, i: int, j: int, ghost lo: int, ghost hi: int)
    requires 0 <= lo <= i <= hi < fmap.Length && lo <= j <= hi
    requires Shuffled(f0, fmap[..], lo, hi + 1)
    modifies fmap
    ensures fmap[..] == Swapped(old(fmap[..]), i, j)
    ensures Shuffled(f0, fmap[..], lo, hi + 1)
  {
    hide *;
    Swap(fmap, i, j, lo, hi);
    ShuffledTransitive(f0, old(fmap[..]), fmap[..], lo, hi + 1);
  }

  method ScanUp(fmap: array<int>, eclass: array<int>, med: int, lo: int, ltLo0: int, unLo0: int, unHi: int, gtHi: int,
                hi: int)
    returns (ltLo: int, unLo: int)
    requires fmap != eclass
    requires ThreeWay(fmap[..], eclass[..], med, lo, ltLo0, unLo0, unHi, gtHi, hi)
    modifies fmap
    ensures Shuffled(old(fmap[..]), fmap[..], lo, hi + 1)
    ensures ThreeWay(fmap[..], eclass[..], med, lo, ltLo, unLo, unHi, gtHi, hi)
    ensures unLo >= unLo0 && (unLo > unHi || eclass[fmap[unLo]] > med)
  {
    hide Shuffled, ThreeWay, Swapped;
    ltLo, unLo := ltLo0, unLo0;
    ghost var f0, ec := fmap[..], eclass[..];
    ScanBounds(f0, ec, med, lo, ltLo, unLo, unHi, gtHi, hi);
    ShuffledReflexive(f0, lo, hi + 1);
    while unLo <= unHi
      invariant unLo >= unLo0 && eclass[..] == ec
      invariant Shuffled(f0, fmap[..], lo, hi + 1)
      invariant ThreeWay(fmap[..], ec, med, lo, ltLo, unLo, unHi, gtHi, hi)
    {
      ghost var f := fmap[..];
      ScanBounds(f, ec, med, lo, ltLo, unLo, unHi, gtHi, hi);
      var n := eclass[fmap[unLo]] - med;
      if n == 0 {
        EqualJoinsLow(f, ec, med, lo, ltLo, unLo, unHi, gtHi, hi);
        SwapAgain(f0, fmap, unLo, ltLo, lo, hi);
        ltLo, unLo := ltLo + 1, unLo + 1;
      } else if n > 0 {
        break;
      } else {
        unLo := unLo + 1;
      }
    }
  }

  method ScanDown(fmap: array<int>, eclass: array<int>, med: int, lo: int, ltLo: int, unLo: int, unHi0: int, gtHi0: int,
                  hi: int)
    returns (unHi: int, gtHi: int)
    requires fmap != eclass
    requires ThreeWay(fmap[..], eclass[..], med, lo, ltLo, unLo, unHi0, gtHi0, hi)
    requires unLo > unHi0 || eclass[fmap[unLo]] > med
    modifies fmap
    ensures Shuffled(old(fmap[..]), fmap[..], lo, hi + 1)
    ensures ThreeWay(fmap[..], eclass[..], med, lo, ltLo, unLo, unHi, gtHi, hi)
    ensures unHi <= unHi0
    ensures unLo <= unHi ==> eclass[fmap[unHi]] < med < eclass[fmap[unLo]]
  {
    hide Shuffled, ThreeWay, Swapped;
    unHi, gtHi := unHi0, gtHi0;
    ghost var f0, ec := fmap[..], eclass[..];
    ScanBounds(f0, ec, med, lo, ltLo, unLo, unHi, gtHi, hi);
    ShuffledReflexive(f0, lo, hi + 1);
    while unLo <= unHi
      invariant unHi <= unHi0 && eclass[..] == ec && 0 <= unLo
      invariant Shuffled(f0, fmap[..], lo, hi + 1)
      invariant ThreeWay(fmap[..], ec, med, lo, ltLo, unLo, unHi, gtHi, hi)
      invariant unLo <= unHi ==> unLo < fmap.Length && 0 <= fmap[unLo] < |ec| && ec[fmap[unLo]] > med
    {
      ghost var f := fmap[..];
      ScanBounds(f, ec, med, lo, ltLo, unLo, unHi, gtHi, hi);
      var n := eclass[fmap[unHi]] - med;
      if n == 0 {
        EqualJoinsHigh(f, ec, med, lo, ltLo, unLo, unHi, gtHi, hi);
        SwapAgain(f0, fmap, unHi, gtHi, lo, hi);
        assert fmap[unLo] == fmap[..][unLo];
        gtHi, unHi := gtHi - 1, unHi - 1;
      } else if n < 0 {
        break;
      } else {
        unHi := unHi - 1;
      }
    }
    ScanBounds(fmap[..], ec, med, lo, ltLo, unLo, unHi, gtHi, hi);
  }

  /** The scan from both ends until everything in [lo, hi] has been classified. */
  method Classify(fmap: array<int>, eclass: array<int>, med: int, lo: int, hi: int)
    returns (ltLo: int, unLo: int, unHi: int, gtHi: int)
    requires fmap != eclass
    requires lo <= hi && Indexes(fmap[..], eclass[..], lo, hi + 1)
    modifies fmap
    ensures Shuffled(old(fmap[..]), fmap[..], lo, hi + 1)
    ensures ThreeWay(fmap[..], eclass[..], med, lo, ltLo, unLo, unHi, gtHi, hi)
    ensures unHi == unLo - 1
  {
    ltLo, unLo, unHi, gtHi := lo, lo, hi, hi;
    ghost var f0, ec := fmap[..], eclass[..];
    assert ThreeWay(f0, ec, med, lo, ltLo, unLo, unHi, gtHi, hi);
    hide Shuffled, ThreeWay, Swapped;
    ShuffledReflexive(f0, lo, hi + 1);
    while true
      invariant eclass[..] == ec
      invariant Shuffled(f0, fmap[..], lo, hi + 1)
      invariant ThreeWay(fmap[..], ec, med, lo, ltLo, unLo, unHi, gtHi, hi)
      decreases unHi - unLo + 1
    {
      ghost var f := fmap[..];
      ltLo, unLo := ScanUp(fmap, eclass, med, lo, ltLo, unLo, unHi, gtHi, hi);
      ghost var g := fmap[..];
      unHi, gtHi := ScanDown(fmap, eclass, med, lo, ltLo, unLo, unHi, gtHi, hi);
      ghost var h := fmap[..];
      ShuffledTransitive(f, g, h, lo, hi + 1);
      ShuffledTransitive(f0, f, h, lo, hi + 1);
      ScanBounds(h, ec, med, lo, ltLo, unLo, unHi, gtHi, hi);
      if unLo > unHi { break; }
      ExchangeJoinsBoth(h, ec, med, lo, ltLo, unLo, unHi, gtHi, hi);
      SwapAgain(f0, fmap, unLo, unHi, lo, hi);
      unLo, unHi := unLo + 1, unHi - 1;
    }
  }

  /** The first d entries from p1 and the first d entries from p2 have changed places. */
  ghost predicate Exchanged(f0: seq<int>, f: seq<int>, p1: int, p2: int, d: int) {
    && |f| == |f0| && 0 <= d && 0 <= p1 && p1 + d <= p2 && p2 + d <= |f|
    && (forall k {:trigger f[k]} :: p1 <= k < p1 + d ==> f[k] == f0[k + (p2 - p1)])
    && (forall k {:trigger f[k]} :: p2 <= k < p2 + d ==> f[k] == f0[k - (p2 - p1)])
    && (forall k {:trigger f[k]} :: 0 <= k < |f| && !(p1 <= k < p1 + d) && !(p2 <= k < p2 + d) ==> f[k] == f0[k])
  }

  lemma ExchangedNone(f: seq<int>, p1: int, p2: int)
    requires 0 <= p1 <= p2 <= |f|
    ensures Exchanged(f, f, p1, p2, 0)
  {
  }

  lemma ExchangedOneMore(f0: seq<int>, f: seq<int>, p1: int, p2: int, d: int, i: int, j: int)
    requires Exchanged(f0, f, p1, p2, d) && i == p1 + d < p2 && j == p2 + d < |f|
    ensures Exchanged(f0, Swapped(f, i, j), p1, p2, d + 1)
  {
  }

  /** Exchange of the n entries from p1 with the n entries from p2. */
  method VectorSwap(fmap: array<int>, p1: int, p2: int, n: int, ghost lo: int, ghost hi: int)
    requires 0 <= n && 0 <= lo <= p1 && p1 + n <= p2 && p2 + n <= hi + 1 <= fmap.Length
    modifies fmap
    ensures Shuffled(old(fmap[..]), fmap[..], lo, hi + 1)
    ensures Exchanged(old(fmap[..]), fmap[..], p1, p2, n)
  {
    hide *;
    ghost var f0 := fmap[..];
    ExchangedNone(f0, p1, p2);
    ShuffledReflexive(f0, lo, hi + 1);
    var yyp1, yyp2, yyn := p1, p2, n;
    ghost var d := 0;
    while yyn > 0
      invariant 0 <= d <= n && yyn == n - d && yyp1 == p1 + d && yyp2 == p2 + d
      invariant Shuffled(f0, fmap[..], lo, hi + 1)
      invariant Exchanged(f0, fmap[..], p1, p2, d)
    {
      ExchangedOneMore(f0, fmap[..], p1, p2, d, yyp1, yyp2);
      d := d + 1;
      SwapAgain(f0, fmap, yyp1, yyp2, lo, hi);
      yyp1, yyp2, yyn := yyp1 + 1, yyp2 + 1, yyn - 1;
    }
  }

  function Min(a: int, b: int): int { if a < b then a else b }

  /** The entries equal to med stand in the middle and at the high end. */
  ghost predicate HighEquals(f: seq<int>, ec: seq<int>, med: int, lo: int, n: int, unLo: int, gtHi: int, hi: int) {
    && Indexes(f, ec, lo, hi + 1) && lo - 1 <= n <= unLo - 1 <= gtHi <= hi
    && (forall k :: lo <= k <= n ==> ec[f[k]] < med)
    && (forall k :: n < k < unLo ==> ec[f[k]] == med)
    && (forall k :: unLo <= k <= gtHi ==> ec[f[k]] > med)
    && (forall k :: gtHi < k <= hi ==> ec[f[k]] == med)
  }

  lemma ThreeWaySizes(f: seq<int>, ec: seq<int>, med: int, lo: int, ltLo: int, unLo: int, gtHi: int, hi: int)
    requires ThreeWay(f, ec, med, lo, ltLo, unLo, unLo - 1, gtHi, hi)
    ensures Indexes(f, ec, lo, hi + 1) && lo <= ltLo <= unLo <= gtHi + 1 <= hi + 1 <= |f|
    ensures gtHi < ltLo ==> Sorted(f, ec, lo, hi + 1)
    ensures var n := Min(ltLo - lo, unLo - ltLo); 0 <= n && lo + n <= unLo - n
    ensures var m := Min(hi - gtHi, gtHi - unLo + 1); 0 <= m && unLo + m <= hi - m + 1
  {
  }

  lemma LowEqualsMoved(f: seq<int>, g: seq<int>, ec: seq<int>, med: int, lo: int, ltLo: int, unLo: int, gtHi: int,
                       hi: int)
    requires ThreeWay(f, ec, med, lo, ltLo, unLo, unLo - 1, gtHi, hi)
    requires var n := Min(ltLo - lo, unLo - ltLo); Exchanged(f, g, lo, unLo - n, n)
    ensures HighEquals(g, ec, med, lo, lo + unLo - ltLo - 1, unLo, gtHi, hi)
  {
  }

  lemma HighEqualsMoved(f: seq<int>, g: seq<int>, ec: seq<int>, med: int, lo: int, n: int, unLo: int, gtHi: int,
                        hi: int)
    requires HighEquals(f, ec, med, lo, n, unLo, gtHi, hi)
    requires var d := Min(hi - gtHi, gtHi - unLo + 1); Exchanged(f, g, unLo, hi - d + 1, d)
    ensures Split(g, ec, med, lo, n, hi - (gtHi - unLo + 1) + 1, hi)
  {
  }

  lemma SomethingIsMedian(f: seq<int>, ec: seq<int>, med: int, lo: int, n: int, m: int, hi: int, f0: seq<int>, i: int)
    requires lo <= i <= hi && Indexes(f0, ec, lo, hi + 1) && ec[f0[i]] == med
    requires Shuffled(f0, f, lo, hi + 1) && Split(f, ec, med, lo, n, m, hi)
    ensures n + 1 < m
  {
    if n + 1 == m {
      assert forall k :: lo <= k < hi + 1 ==> 0 <= f[k] < |ec| && ec[f[k]] != med;
      ShuffledReverse(f0, f, lo, hi + 1);
      ShuffledForall(f, f0, lo, hi + 1, v => 0 <= v < |ec| && ec[v] != med);
      assert false;
    }
  }

  lemma PartitionDone(f0: seq<int>, f: seq<int>, g: seq<int>, h: seq<int>, ec: seq<int>, med: int,
                      lo: int, n: int, unLo: int, gtHi: int, m: int, hi: int, i: int)
    requires lo <= i <= hi && Indexes(f0, ec, lo, hi + 1) && ec[f0[i]] == med
      && HighEquals(g, ec, med, lo, n, unLo, gtHi, hi)
    requires Shuffled(f0, f, lo, hi + 1) && Shuffled(f, g, lo, hi + 1) && Shuffled(g, h, lo, hi + 1)
    requires m == hi - (gtHi - unLo + 1) + 1
    requires var d := Min(hi - gtHi, gtHi - unLo + 1); Exchanged(g, h, unLo, hi - d + 1, d)
    ensures Shuffled(f0, h, lo, hi + 1) && Indexes(h, ec, lo, hi + 1) && Split(h, ec, med, lo, n, m, hi) && n + 1 < m
  {
    hide Shuffled, Exchanged, HighEquals, Min;
    ShuffledTransitive(f0, f, g, lo, hi + 1);
    ShuffledTransitive(f0, g, h, lo, hi + 1);
    HighEqualsMoved(g, h, ec, med, lo, n, unLo, gtHi, hi);
    SomethingIsMedian(h, ec, med, lo, n, m, hi, f0, i);
  }

  /**
   Three-way partition of [lo, hi] around the class med of one of its entries. `sorted` reports the
   case in which every entry has class med; otherwise the range is left split at n and m.
   */
  method Partition(fmap: array<int>, eclass: array<int>, med: int, lo: int, hi: int, ghost i: int)
    returns (sorted: bool, n: int, m: int)
    requires fmap != eclass
    requires lo <= i <= hi && Indexes(fmap[..], eclass[..], lo, hi + 1) && eclass[fmap[i]] == med
    modifies fmap
    ensures Shuffled(old(fmap[..]), fmap[..], lo, hi + 1)
    ensures Indexes(fmap[..], eclass[..], lo, hi + 1)
    ensures sorted ==> Sorted(fmap[..], eclass[..], lo, hi + 1)
    ensures !sorted ==> Split(fmap[..], eclass[..], med, lo, n, m, hi) && n + 1 < m
  {
    hide Shuffled, Exchanged, Swapped, ThreeWay, Split, HighEquals, Sorted;
    ghost var f0, ec := fmap[..], eclass[..];
    assert ec[f0[i]] == med;
    var ltLo, unLo, unHi, gtHi := Classify(fmap, eclass, med, lo, hi);
    ghost var f := fmap[..];
    ThreeWaySizes(f, ec, med, lo, ltLo, unLo, gtHi, hi);
    if gtHi < ltLo { return true, lo, hi; }
    sorted := false;
    n := Min(ltLo - lo, unLo - ltLo);
    VectorSwap(fmap, lo, unLo - n, n, lo, hi);
    ghost var g := fmap[..];
    LowEqualsMoved(f, g, ec, med, lo, ltLo, unLo, gtHi, hi);
    m := Min(hi - gtHi, gtHi - unHi);
    VectorSwap(fmap, unLo, hi - m + 1, m, lo, hi);
    n := lo + unLo - ltLo - 1;
    m := hi - (gtHi - unHi) + 1;
    PartitionDone(f0, f, g, fmap[..], ec, med, lo, n, unLo, gtHi, m, hi, i);
  }

  // ----- the stack of pending ranges ----------------------------------------------------------

  /** No entry of [lo, p) has a larger class than an entry of [p, hi]. */
  ghost predicate Cut(f: seq<int>, ec: seq<int>, lo: int, hi: int, p: int)
    requires Indexes(f, ec, lo, hi + 1)
  {
    forall i, j :: lo <= i < p <= j <= hi ==> ec[f[i]] <= ec[f[j]]
  }

  /**
   Bookkeeping of the pending ranges. own[p] says for the boundary before position p either that it
   is settled (-1) or which pending range it lies strictly inside; both ends of a range are settled.
   */
  ghost predicate Shape(lo: int, hi: int, stLo: seq<int>, stHi: seq<int>, own: seq<int>) {
    && |stLo| == |stHi| && |own| == hi + 2 && 0 <= lo
    && (forall k :: 0 <= k < |stLo| ==> lo <= stLo[k] <= stHi[k] + 1 <= hi + 1)
    && (forall k :: 0 <= k < |stLo| ==> own[stLo[k]] == -1 && own[stHi[k] + 1] == -1)
    && (forall k, p :: 0 <= k < |stLo| && stLo[k] < p <= stHi[k] ==> own[p] == k)
    && (forall p {:trigger own[p]} :: lo <= p <= hi + 1 && own[p] != -1 ==>
         0 <= own[p] < |stLo| && stLo[own[p]] < p <= stHi[own[p]])
  }

  ghost predicate CutsHold(f: seq<int>, ec: seq<int>, lo: int, hi: int, own: seq<int>)
    requires Indexes(f, ec, lo, hi + 1) && |own| == hi + 2
  {
    forall p {:trigger own[p]} :: lo <= p <= hi + 1 && own[p] == -1 ==> Cut(f, ec, lo, hi, p)
  }

  /** The quicksort invariant: every boundary not strictly inside a pending range is a cut. */
  ghost predicate Pends(f: seq<int>, ec: seq<int>, lo: int, hi: int, stLo: seq<int>, stHi: seq<int>, own: seq<int>) {
    && Indexes(f, ec, lo, hi + 1)
    && Shape(lo, hi, stLo, stHi, own)
    && CutsHold(f, ec, lo, hi, own)
  }

  lemma PendsInitially(f: seq<int>, ec: seq<int>, lo: int, hi: int) returns (own: seq<int>)
    requires lo <= hi + 1 && Indexes(f, ec, lo, hi + 1)
    ensures Pends(f, ec, lo, hi, [lo], [hi], own)
  {
    own := seq(hi + 2, p requires 0 <= p < hi + 2 => if lo < p <= hi then 0 else -1);
  }

  lemma PendsFinally(f: seq<int>, ec: seq<int>, lo: int, hi: int, own: seq<int>)
    requires Pends(f, ec, lo, hi, [], [], own)
    ensures Sorted(f, ec, lo, hi + 1)
  {
    forall i, j | lo <= i <= j < hi + 1 ensures ec[f[i]] <= ec[f[j]] {
      if i < j { assert own[j] == -1; }
    }
  }

  /** A cut outside the open range (a, b] survives a shuffle of [a, b]. */
  lemma CutSurvives(f: seq<int>, g: seq<int>, ec: seq<int>, lo: int, hi: int, a: int, b: int, p: int)
    requires Indexes(f, ec, lo, hi + 1) && Indexes(g, ec, lo, hi + 1)
    requires lo <= a <= b + 1 <= hi + 1 && Shuffled(f, g, a, b + 1)
    requires Cut(f, ec, lo, hi, p) && lo <= p <= hi + 1 && !(a < p <= b)
    ensures Cut(g, ec, lo, hi, p)
  {
    ShuffledOutside(f, g, a, b + 1);
    forall i, j | lo <= i < p <= j <= hi ensures ec[g[i]] <= ec[g[j]] {
      if p <= a {
        assert g[i] == f[i];
        if a <= j <= b {
          ShuffledForall(f, g, a, b + 1, v => 0 <= v < |ec| && ec[f[i]] <= ec[v]);
        }
      } else {
        assert g[j] == f[j];
        if a <= i <= b {
          ShuffledForall(f, g, a, b + 1, v => 0 <= v < |ec| && ec[v] <= ec[f[j]]);
        }
      }
    }
  }

  /** A cut of the range [a, b] whose two ends are cuts is a cut of the whole. */
  lemma CutInside(g: seq<int>, ec: seq<int>, lo: int, hi: int, a: int, b: int, p: int)
    requires Indexes(g, ec, lo, hi + 1) && lo <= a < p <= b <= hi
    requires Cut(g, ec, lo, hi, a) && Cut(g, ec, lo, hi, b + 1)
    requires forall i, j :: a <= i < p <= j <= b ==> ec[g[i]] <= ec[g[j]]
    ensures Cut(g, ec, lo, hi, p)
  {
    forall i, j | lo <= i < p <= j <= hi ensures ec[g[i]] <= ec[g[j]] {
      if i < a {
        assert ec[g[i]] <= ec[g[j]];
      } else if j > b {
        assert ec[g[i]] <= ec[g[j]];
      }
    }
  }

  /** No pending range ends strictly inside [a, b]. */
  ghost predicate Apart(stLo: seq<int>, stHi: seq<int>, a: int, b: int)
    requires |stLo| == |stHi|
  {
    forall k :: 0 <= k < |stLo| ==> !(a < stLo[k] <= b) && !(a < stHi[k] + 1 <= b)
  }

  lemma ShapePopped(lo: int, hi: int, stLo: seq<int>, stHi: seq<int>, own: seq<int>, a: int, b: int)
    returns (own': seq<int>)
    requires Shape(lo, hi, stLo + [a], stHi + [b], own) && |stLo| == |stHi|
    ensures |own'| == |own| == hi + 2
    ensures forall p {:trigger own'[p]} :: 0 <= p < |own| ==> own'[p] == if a < p <= b then -1 else own[p]
    ensures Shape(lo, hi, stLo, stHi, own') && Apart(stLo, stHi, a, b)
    ensures 0 <= lo <= a <= b + 1 <= hi + 1 && own[a] == -1 && own[b + 1] == -1
  {
    own' := seq(|own|, p requires 0 <= p < |own| => if a < p <= b then -1 else own[p]);
    TopOff(stLo, stHi, a, b);
    PoppedEdges(lo, hi, stLo, stHi, own, a, b, own');
    PoppedOwners(lo, hi, stLo, stHi, own, a, b, own');
  }

  lemma TopOff(stLo: seq<int>, stHi: seq<int>, a: int, b: int)
    requires |stLo| == |stHi|
    ensures var t := |stLo|; (stLo + [a])[t] == a && (stHi + [b])[t] == b
    ensures forall k {:trigger stLo[k]} {:trigger stHi[k]} :: 0 <= k < |stLo| ==>
      (stLo + [a])[k] == stLo[k] && (stHi + [b])[k] == stHi[k]
  {
  }

  lemma PoppedEdges(lo: int, hi: int, stLo: seq<int>, stHi: seq<int>, own: seq<int>, a: int, b: int, own': seq<int>)
    requires Shape(lo, hi, stLo + [a], stHi + [b], own) && |stLo| == |stHi| && |own'| == |own|
    requires forall p {:trigger own'[p]} :: 0 <= p < |own| ==> own'[p] == if a < p <= b then -1 else own[p]
    ensures 0 <= lo <= a <= b + 1 <= hi + 1 && own[a] == -1 && own[b + 1] == -1 && Apart(stLo, stHi, a, b)
    ensures forall k :: 0 <= k < |stLo| ==> lo <= stLo[k] <= stHi[k] + 1 <= hi + 1
    ensures forall k :: 0 <= k < |stLo| ==> own'[stLo[k]] == -1 && own'[stHi[k] + 1] == -1
  {
    TopOff(stLo, stHi, a, b);
    var L, H := stLo + [a], stHi + [b];
    forall k | 0 <= k < |stLo|
      ensures lo <= stLo[k] <= stHi[k] + 1 <= hi + 1 && own[stLo[k]] == -1 && own[stHi[k] + 1] == -1
    {
      assert lo <= L[k] <= H[k] + 1 <= hi + 1 && own[L[k]] == -1 && own[H[k] + 1] == -1;
    }
    forall k | 0 <= k < |stLo| ensures !(a < stLo[k] <= b) && !(a < stHi[k] + 1 <= b) {
      assert own[stLo[k]] == -1 && own[stHi[k] + 1] == -1;
    }
  }

  lemma PoppedOwners(lo: int, hi: int, stLo: seq<int>, stHi: seq<int>, own: seq<int>, a: int, b: int, own': seq<int>)
    requires Shape(lo, hi, stLo + [a], stHi + [b], own) && |stLo| == |stHi| && |own'| == |own|
    requires forall p {:trigger own'[p]} :: 0 <= p < |own| ==> own'[p] == if a < p <= b then -1 else own[p]
    ensures 0 <= lo && |own| == hi + 2 && forall k :: 0 <= k < |stLo| ==> lo <= stLo[k] <= stHi[k] + 1 <= hi + 1
    ensures forall k, p :: 0 <= k < |stLo| && stLo[k] < p <= stHi[k] ==> own'[p] == k
    ensures forall p {:trigger own'[p]} :: lo <= p <= hi + 1 && own'[p] != -1 ==>
      0 <= own'[p] < |stLo| && stLo[own'[p]] < p <= stHi[own'[p]]
  {
    TopOff(stLo, stHi, a, b);
    var L, H := stLo + [a], stHi + [b];
    assert forall k {:trigger L[k]} :: 0 <= k < |L| ==> lo <= L[k] <= H[k] + 1 <= hi + 1;
    forall k, p | 0 <= k < |stLo| && stLo[k] < p <= stHi[k] ensures own'[p] == k {
      assert lo <= L[k] <= H[k] + 1 <= hi + 1;
      assert own[p] == k;
    }
    forall p {:trigger own'[p]} | lo <= p <= hi + 1 && own'[p] != -1
      ensures 0 <= own'[p] < |stLo| && stLo[own'[p]] < p <= stHi[own'[p]]
    {
      assert own'[p] == own[p] && L[own[p]] < p <= H[own[p]];
    }
  }

  lemma ShapePushed(lo: int, hi: int, stLo: seq<int>, stHi: seq<int>, own: seq<int>, a: int, b: int)
    returns (own': seq<int>)
    requires Shape(lo, hi, stLo, stHi, own) && |own| == hi + 2 && |stLo| == |stHi| && 0 <= lo
    requires lo <= a <= b + 1 <= hi + 1
    requires own[a] == -1 && own[b + 1] == -1 && Apart(stLo, stHi, a, b)
    requires forall p :: a < p <= b ==> own[p] == -1
    ensures |own'| == |own|
    ensures forall p {:trigger own'[p]} :: 0 <= p < |own| ==> own'[p] == if a < p <= b then |stLo| else own[p]
    ensures Shape(lo, hi, stLo + [a], stHi + [b], own')
  {
    own' := seq(|own|, p requires 0 <= p < |own| => if a < p <= b then |stLo| else own[p]);
    ShapeBounds(lo, hi, stLo, stHi, own, a, b);
    ShapeEdges(lo, hi, stLo, stHi, own, a, b, own');
    ShapeOwners(lo, hi, stLo, stHi, own, a, b, own');
    hide Apart;
  }

  /** No range takes in the edge of another. */
  lemma ShapeEdges(lo: int, hi: int, stLo: seq<int>, stHi: seq<int>, own: seq<int>, a: int, b: int, own': seq<int>)
    requires Shape(lo, hi, stLo, stHi, own) && |own'| == |own| && lo <= a <= b + 1 <= hi + 1
    requires own[a] == -1 && own[b + 1] == -1 && Apart(stLo, stHi, a, b)
    requires forall p {:trigger own'[p]} :: 0 <= p < |own| ==> own'[p] == if a < p <= b then |stLo| else own[p]
    ensures forall k :: 0 <= k < |stLo| + 1 ==> own'[(stLo + [a])[k]] == -1 && own'[(stHi + [b])[k] + 1] == -1
  {
    forall k | 0 <= k < |stLo| + 1 ensures own'[(stLo + [a])[k]] == -1 && own'[(stHi + [b])[k] + 1] == -1 {
      if k < |stLo| { assert own[stLo[k]] == -1 && own[stHi[k] + 1] == -1; }
    }
  }

  lemma ShapeOwners(lo: int, hi: int, stLo: seq<int>, stHi: seq<int>, own: seq<int>, a: int, b: int, own': seq<int>)
    requires Shape(lo, hi, stLo, stHi, own) && |own'| == |own| && lo <= a <= b + 1 <= hi + 1
    requires forall p :: a < p <= b ==> own[p] == -1
    requires forall p {:trigger own'[p]} :: 0 <= p < |own| ==> own'[p] == if a < p <= b then |stLo| else own[p]
    ensures var L, H := stLo + [a], stHi + [b];
      && (forall k, p :: 0 <= k < |L| && L[k] < p <= H[k] ==> own'[p] == k)
      && (forall p {:trigger own'[p]} :: lo <= p <= hi + 1 && own'[p] != -1 ==>
           0 <= own'[p] < |L| && L[own'[p]] < p <= H[own'[p]])
  {
    var L, H := stLo + [a], stHi + [b];
    forall k, p | 0 <= k < |L| && L[k] < p <= H[k] ensures own'[p] == k {
      if k < |stLo| { assert own[p] == k; }
    }
    forall p {:trigger own'[p]} | lo <= p <= hi + 1 && own'[p] != -1
      ensures 0 <= own'[p] < |L| && L[own'[p]] < p <= H[own'[p]]
    {
      if !(a < p <= b) { assert own'[p] == own[p]; }
    }
  }

  lemma ShapeBounds(lo: int, hi: int, stLo: seq<int>, stHi: seq<int>, own: seq<int>, a: int, b: int)
    requires Shape(lo, hi, stLo, stHi, own) && lo <= a <= b + 1 <= hi + 1
    ensures forall k :: 0 <= k < |stLo| + 1 ==> lo <= (stLo + [a])[k] <= (stHi + [b])[k] + 1 <= hi + 1
  {
  }

  /** Popping the top range and shuffling it leaves every settled boundary outside it a cut. */
  lemma CutsPopped(f: seq<int>, g: seq<int>, ec: seq<int>, lo: int, hi: int, stLo: seq<int>, stHi: seq<int>,
                   own: seq<int>, a: int, b: int)
    requires |stLo| == |stHi| && Pends(f, ec, lo, hi, stLo + [a], stHi + [b], own)
    requires Shuffled(f, g, a, b + 1) && Indexes(g, ec, lo, hi + 1)
    ensures 0 <= lo <= a <= b + 1 <= hi + 1 && |own| == hi + 2
    ensures Cut(g, ec, lo, hi, a) && Cut(g, ec, lo, hi, b + 1)
    ensures forall p {:trigger own[p]} :: lo <= p <= hi + 1 && !(a < p <= b) && own[p] == -1 ==> Cut(g, ec, lo, hi, p)
  {
    assert (stLo + [a])[|stLo|] == a && (stHi + [b])[|stLo|] == b;
    forall p | lo <= p <= hi + 1 && !(a < p <= b) && own[p] == -1 ensures Cut(g, ec, lo, hi, p) {
      CutSurvives(f, g, ec, lo, hi, a, b, p);
    }
    assert own[a] == -1 && own[b + 1] == -1;
  }

  /** The top range [a, b] has been sorted outright. */
  lemma PendsSorted(f: seq<int>, g: seq<int>, ec: seq<int>, lo: int, hi: int, stLo: seq<int>, stHi: seq<int>,
                    own: seq<int>, a: int, b: int)
    returns (own': seq<int>)
    requires |stLo| == |stHi| && Pends(f, ec, lo, hi, stLo + [a], stHi + [b], own)
    requires Shuffled(f, g, a, b + 1) && Indexes(g, ec, lo, hi + 1)
    requires lo <= a <= b + 1 <= hi + 1 && Sorted(g, ec, a, b + 1)
    ensures Pends(g, ec, lo, hi, stLo, stHi, own')
  {
    hide Cut, Shuffled, Shape, Apart;
    CutsPopped(f, g, ec, lo, hi, stLo, stHi, own, a, b);
    own' := ShapePopped(lo, hi, stLo, stHi, own, a, b);
    forall p | a < p <= b ensures Cut(g, ec, lo, hi, p) {
      CutInside(g, ec, lo, hi, a, b, p);
    }
  }

  lemma ShapeSplit(lo: int, hi: int, stLo: seq<int>, stHi: seq<int>, a: int, b: int, own: seq<int>, x: int, y: int,
                   z: int, w: int)
    returns (own': seq<int>)
    requires |stLo| == |stHi| && Shape(lo, hi, stLo + [a], stHi + [b], own)
    requires a <= x <= y + 1 <= b + 1 && a <= z <= w + 1 <= b + 1
    requires y + 1 < z || w + 1 < x
    ensures Shape(lo, hi, stLo + [x] + [z], stHi + [y] + [w], own')
    ensures |own'| == |own| == hi + 2 && 0 <= lo <= a && b <= hi
    ensures forall p {:trigger own'[p]} :: 0 <= p < |own| && !(a < p <= b) ==> own'[p] == own[p]
    ensures forall p {:trigger own'[p]} :: a < p <= b && (x < p <= y || z < p <= w) ==> own'[p] != -1
  {
    hide Shape, Apart;
    var own0 := ShapePopped(lo, hi, stLo, stHi, own, a, b);
    ApartPushed(stLo, stHi, a, b, x, y, z, w);
    own' := ShapePushedTwice(lo, hi, stLo, stHi, own0, x, y, z, w);
  }

  lemma ShapePushedTwice(lo: int, hi: int, stLo: seq<int>, stHi: seq<int>, own: seq<int>, x: int, y: int, z: int,
                         w: int)
    returns (own': seq<int>)
    requires Shape(lo, hi, stLo, stHi, own) && |own| == hi + 2 && |stLo| == |stHi| && 0 <= lo
    requires lo <= x <= y + 1 <= hi + 1 && lo <= z <= w + 1 <= hi + 1 && (y + 1 < z || w + 1 < x)
    requires Apart(stLo, stHi, x, y) && Apart(stLo + [x], stHi + [y], z, w)
    requires own[x] == -1 && own[y + 1] == -1 && own[z] == -1 && own[w + 1] == -1
    requires forall p {:trigger own[p]} :: x < p <= y || z < p <= w ==> own[p] == -1
    ensures Shape(lo, hi, stLo + [x] + [z], stHi + [y] + [w], own') && |own'| == |own|
    ensures forall p {:trigger own'[p]} :: 0 <= p < |own| && !(x < p <= y || z < p <= w) ==> own'[p] == own[p]
    ensures forall p {:trigger own'[p]} :: x < p <= y || z < p <= w ==> own'[p] != -1
  {
    hide Shape, Apart;
    var own1 := ShapePushed(lo, hi, stLo, stHi, own, x, y);
    own' := ShapePushed(lo, hi, stLo + [x], stHi + [y], own1, z, w);
  }

  lemma ApartPushed(stLo: seq<int>, stHi: seq<int>, a: int, b: int, x: int, y: int, z: int, w: int)
    requires |stLo| == |stHi| && Apart(stLo, stHi, a, b)
    requires a <= x <= y + 1 <= b + 1 && a <= z <= w + 1 <= b + 1
    requires y + 1 < z || w + 1 < x
    ensures Apart(stLo, stHi, x, y)
    ensures Apart(stLo + [x], stHi + [y], z, w)
  {
  }

  lemma CutsSplit(g: seq<int>, ec: seq<int>, lo: int, hi: int, a: int, b: int, med: int, n: int, m: int)
    requires Indexes(g, ec, lo, hi + 1) && lo <= a <= b <= hi && Split(g, ec, med, a, n, m, b)
    requires Cut(g, ec, lo, hi, a) && Cut(g, ec, lo, hi, b + 1)
    ensures forall p :: a < p <= b && n < p <= m ==> Cut(g, ec, lo, hi, p)
  {
    forall p | a < p <= b && n < p <= m ensures Cut(g, ec, lo, hi, p) {
      CutInside(g, ec, lo, hi, a, b, p);
    }
  }

  /** The top range [a, b] has been split and its two outer parts (in either order) are pending instead. */
  lemma PendsSplit(f: seq<int>, g: seq<int>, ec: seq<int>, lo: int, hi: int, stLo: seq<int>, stHi: seq<int>,
                   own: seq<int>,
                   a: int, b: int, med: int, n: int, m: int, x: int, y: int, z: int, w: int)
    returns (own': seq<int>)
    requires |stLo| == |stHi| && Pends(f, ec, lo, hi, stLo + [a], stHi + [b], own)
    requires Shuffled(f, g, a, b + 1) && Indexes(g, ec, lo, hi + 1)
    requires lo <= a <= b <= hi && Split(g, ec, med, a, n, m, b) && n + 1 < m
    requires (x == a && y == n && z == m && w == b) || (x == m && y == b && z == a && w == n)
    ensures Pends(g, ec, lo, hi, stLo + [x] + [z], stHi + [y] + [w], own')
  {
    CutsPopped(f, g, ec, lo, hi, stLo, stHi, own, a, b);
    CutsSplit(g, ec, lo, hi, a, b, med, n, m);
    own' := ShapeSplit(lo, hi, stLo, stHi, a, b, own, x, y, z, w);
    hide Shape, Cut, Shuffled, Split, Indexes;
    forall p {:trigger own'[p]} | lo <= p <= hi + 1 && own'[p] == -1 ensures Cut(g, ec, lo, hi, p) {
      if !(a < p <= b) { assert own[p] == -1; }
    }
  }

  // ----- stack depth and termination ----------------------------------------------------------

  const MAX_BLOCK := 900000

  /** Largest size a range k places above the bottom of the stack can have when the bottom holds n. */
  function Cap(n: nat, k: nat): (r: nat)
    ensures r <= n
    decreases k
  {
    if k == 0 then n else Cap(n, k - 1) / 2
  }

  lemma {:induction false} CapMonotone(n: nat, n': nat, k: nat)
    requires n <= n'
    ensures Cap(n, k) <= Cap(n', k)
    decreases k
  {
    if k > 0 { CapMonotone(n, n', k - 1); }
  }

  lemma {:induction false} CapFalls(n: nat, k: nat, k': nat)
    requires k <= k'
    ensures Cap(n, k') <= Cap(n, k)
    decreases k' - k
  {
    if k < k' { CapFalls(n, k, k' - 1); }
  }

  lemma CapOfBlock()
    ensures Cap(MAX_BLOCK, 17) == 6
  {
    assert Cap(MAX_BLOCK, 4) == 56250;
    assert Cap(MAX_BLOCK, 8) == 3515;
    assert Cap(MAX_BLOCK, 12) == 219;
    assert Cap(MAX_BLOCK, 16) == 13;
  }

  /** Sizes halve going up the stack, because the larger part is pushed first. */
  ghost predicate Halving(stLo: seq<int>, stHi: seq<int>, n: nat) {
    && |stLo| == |stHi|
    && forall k :: 0 <= k < |stLo| ==> stHi[k] - stLo[k] + 1 <= Cap(n, k)
  }

  /** A range large enough to be partitioned sits low on the stack. */
  lemma DepthBound(n: nat, k: nat)
    requires n <= MAX_BLOCK && Cap(n, k) > SMALL_THRESH
    ensures k <= 16
  {
    if k >= 17 {
      CapFalls(n, 17, k);
      CapMonotone(n, MAX_BLOCK, 17);
      CapOfBlock();
    }
  }

  lemma HalvingPushed(stLo: seq<int>, stHi: seq<int>, a: int, b: int, n: nat, x: int, y: int, z: int, w: int)
    requires Halving(stLo + [a], stHi + [b], n) && |stLo| == |stHi|
    requires 0 <= y - x + 1 && 0 <= w - z + 1 <= y - x + 1 && (y - x + 1) + (w - z + 1) <= b - a + 1
    ensures Halving(stLo + [x] + [z], stHi + [y] + [w], n)
  {
    var L, H := stLo + [a], stHi + [b];
    assert H[|stLo|] - L[|stLo|] + 1 <= Cap(n, |stLo|);
    forall k | 0 <= k < |stLo| ensures stHi[k] - stLo[k] + 1 <= Cap(n, k) {
      assert L[k] == stLo[k] && H[k] == stHi[k];
    }
  }

  lemma HalvingPopped(stLo: seq<int>, stHi: seq<int>, a: int, b: int, n: nat)
    requires Halving(stLo + [a], stHi + [b], n) && |stLo| == |stHi|
    ensures Halving(stLo, stHi, n) && b - a + 1 <= Cap(n, |stLo|)
  {
    var L, H := stLo + [a], stHi + [b];
    assert H[|stLo|] - L[|stLo|] + 1 <= Cap(n, |stLo|);
    forall k | 0 <= k < |stLo| ensures stHi[k] - stLo[k] + 1 <= Cap(n, k) {
      assert L[k] == stLo[k] && H[k] == stHi[k];
    }
  }

  /** Work left: every pending range counts twice its size plus one. */
  ghost function Work(stLo: seq<int>, stHi: seq<int>): (r: nat)
    requires |stLo| == |stHi|
  {
    if stLo == [] then 0
    else
      var t := |stLo| - 1;
      var size := stHi[t] - stLo[t] + 1;
      Work(stLo[..t], stHi[..t]) + (if size > 0 then 2 * size else 0) + 1
  }

  lemma WorkPushed(stLo: seq<int>, stHi: seq<int>, a: int, b: int)
    requires |stLo| == |stHi| && a <= b + 1
    ensures Work(stLo + [a], stHi + [b]) == Work(stLo, stHi) + 2 * (b - a + 1) + 1
  {
    assert (stLo + [a])[..|stLo|] == stLo && (stHi + [b])[..|stLo|] == stHi;
  }

  /** Everything the main loop keeps, for the stack contents stLo/stHi. */
  ghost predicate Running(f0: seq<int>, f: seq<int>, ec: seq<int>, lo: int, hi: int, stLo: seq<int>, stHi: seq<int>,
                          own: seq<int>) {
    && 0 <= hi - lo + 1 <= MAX_BLOCK
    && |stLo| == |stHi|
    && Pends(f, ec, lo, hi, stLo, stHi, own)
    && Shuffled(f0, f, lo, hi + 1)
    && Halving(stLo, stHi, hi - lo + 1)
  }

  lemma RunningStarts(f: seq<int>, ec: seq<int>, lo: int, hi: int) returns (own: seq<int>)
    requires 0 <= hi - lo + 1 <= MAX_BLOCK && Indexes(f, ec, lo, hi + 1)
    ensures Running(f, f, ec, lo, hi, [] + [lo], [] + [hi], own)
  {
    own := PendsInitially(f, ec, lo, hi);
    assert [] + [lo] == [lo] && [] + [hi] == [hi];
  }

  /** The top range: where it lies, how it bounds the stack height, and what popping it leaves. */
  lemma RunningTop(f0: seq<int>, f: seq<int>, ec: seq<int>, lo: int, hi: int, stLo: seq<int>, stHi: seq<int>,
                   own: seq<int>, a: int, b: int)
    requires |stLo| == |stHi| && Running(f0, f, ec, lo, hi, stLo + [a], stHi + [b], own)
    ensures 0 <= lo <= a <= b + 1 <= hi + 1 <= |f| && Indexes(f, ec, lo, hi + 1) && Indexes(f, ec, a, b + 1)
    ensures b - a >= SMALL_THRESH ==> |stLo| <= 16
  {
    assert (stLo + [a])[|stLo|] == a && (stHi + [b])[|stLo|] == b;
    HalvingPopped(stLo, stHi, a, b, hi - lo + 1);
    if b - a >= SMALL_THRESH { DepthBound(hi - lo + 1, |stLo|); }
  }

  lemma RunningSorted(f0: seq<int>, f: seq<int>, g: seq<int>, ec: seq<int>, lo: int, hi: int, stLo: seq<int>,
                      stHi: seq<int>, own: seq<int>, a: int, b: int)
    returns (own': seq<int>)
    requires |stLo| == |stHi| && Running(f0, f, ec, lo, hi, stLo + [a], stHi + [b], own)
    requires Shuffled(f, g, a, b + 1) && Indexes(g, ec, a, b + 1) && Sorted(g, ec, a, b + 1)
    ensures Running(f0, g, ec, lo, hi, stLo, stHi, own')
    ensures Work(stLo, stHi) < Work(stLo + [a], stHi + [b])
  {
    hide Shuffled, Pends, Halving, Work, Indexes, Sorted, Split;
    RunningTop(f0, f, ec, lo, hi, stLo, stHi, own, a, b);
    HalvingPopped(stLo, stHi, a, b, hi - lo + 1);
    WorkPushed(stLo, stHi, a, b);
    ShuffledWidens(f, g, a, b + 1, lo, hi + 1);
    ShuffledTransitive(f0, f, g, lo, hi + 1);
    IndexesAfter(f, g, ec, lo, hi + 1);
    own' := PendsSorted(f, g, ec, lo, hi, stLo, stHi, own, a, b);
  }

  lemma RunningSplit(f0: seq<int>, f: seq<int>, g: seq<int>, ec: seq<int>, lo: int, hi: int, stLo: seq<int>,
                     stHi: seq<int>, own: seq<int>,
                     a: int, b: int, med: int, n: int, m: int, x: int, y: int, z: int, w: int)
    returns (own': seq<int>)
    requires |stLo| == |stHi| && Running(f0, f, ec, lo, hi, stLo + [a], stHi + [b], own)
    requires Shuffled(f, g, a, b + 1) && a <= b && Split(g, ec, med, a, n, m, b) && n + 1 < m
    requires (x == a && y == n && z == m && w == b) || (x == m && y == b && z == a && w == n)
    requires w - z <= y - x
    ensures Running(f0, g, ec, lo, hi, stLo + [x] + [z], stHi + [y] + [w], own')
    ensures Work(stLo + [x] + [z], stHi + [y] + [w]) < Work(stLo + [a], stHi + [b])
  {
    hide Shuffled, Pends, Halving, Work, Indexes;
    RunningTop(f0, f, ec, lo, hi, stLo, stHi, own, a, b);
    HalvingPushed(stLo, stHi, a, b, hi - lo + 1, x, y, z, w);
    WorkPushed(stLo, stHi, a, b);
    WorkPushed(stLo, stHi, x, y);
    WorkPushed(stLo + [x], stHi + [y], z, w);
    ShuffledWidens(f, g, a, b + 1, lo, hi + 1);
    ShuffledTransitive(f0, f, g, lo, hi + 1);
    IndexesAfter(f, g, ec, lo, hi + 1);
    own' := PendsSplit(f, g, ec, lo, hi, stLo, stHi, own, a, b, med, n, m, x, y, z, w);
  }

  lemma RunningEnds(f0: seq<int>, f: seq<int>, ec: seq<int>, lo: int, hi: int, own: seq<int>)
    requires Running(f0, f, ec, lo, hi, [], [], own)
    ensures Shuffled(f0, f, lo, hi + 1) && Indexes(f, ec, lo, hi + 1) && Sorted(f, ec, lo, hi + 1)
  {
    PendsFinally(f, ec, lo, hi, own);
  }

  /** The ranges on the stack, as two sequences. */
  ghost predicate OnStack(stackLo: seq<int>, stackHi: seq<int>, sp: int, stLo: seq<int>, stHi: seq<int>) {
    0 <= sp <= STACK_SIZE == |stackLo| == |stackHi| && stackLo[..sp] == stLo && stackHi[..sp] == stHi
  }

  /** fpush. */
  method Push(stackLo: array<int>, stackHi: array<int>, sp0: int, lo: int, hi: int, ghost stLo: seq<int>,
              ghost stHi: seq<int>) returns (sp: int)
    requires stackLo != stackHi && OnStack(stackLo[..], stackHi[..], sp0, stLo, stHi) && sp0 < STACK_SIZE
    modifies stackLo, stackHi
    ensures sp == sp0 + 1 && OnStack(stackLo[..], stackHi[..], sp, stLo + [lo], stHi + [hi])
  {
    stackLo[sp0], stackHi[sp0] := lo, hi;
    sp := sp0 + 1;
    assert stackLo[..sp] == stackLo[..sp0] + [lo] && stackHi[..sp] == stackHi[..sp0] + [hi];
  }

  /** fpop. */
  method Pop(stackLo: array<int>, stackHi: array<int>, sp0: int, ghost stLo: seq<int>, ghost stHi: seq<int>)
    returns (sp: int, lo: int, hi: int, ghost belowLo: seq<int>, ghost belowHi: seq<int>)
    requires OnStack(stackLo[..], stackHi[..], sp0, stLo, stHi) && sp0 > 0
    ensures sp == sp0 - 1 && OnStack(stackLo[..], stackHi[..], sp, belowLo, belowHi) && |belowLo| == |belowHi| == sp
    ensures stLo == belowLo + [lo] && stHi == belowHi + [hi]
  {
    sp := sp0 - 1;
    lo, hi := stackLo[sp], stackHi[sp];
    belowLo, belowHi := stackLo[..sp], stackHi[..sp];
  }

  /**
   The quicksort on [loSt, hiSt]. The pivot is picked by a small generator; the larger part is pushed
   first, so the stack assertion at the head of the loop cannot fail on any range of a block.
   */
  method QSort3(fmap: array<int>, eclass: array<int>, loSt: int, hiSt: int)
    requires fmap != eclass
    requires 0 <= hiSt - loSt + 1 <= MAX_BLOCK && Indexes(fmap[..], eclass[..], loSt, hiSt + 1)
    modifies fmap
    ensures Shuffled(old(fmap[..]), fmap[..], loSt, hiSt + 1)
    ensures Indexes(fmap[..], eclass[..], loSt, hiSt + 1)
    ensures Sorted(fmap[..], eclass[..], loSt, hiSt + 1)
  {
    hide Running, Split, Shuffled, Work;
    ghost var f0, ec := fmap[..], eclass[..];
    var stackLo, stackHi := new int[STACK_SIZE], new int[STACK_SIZE];
    var sp, r := 0, 0;
    sp := Push(stackLo, stackHi, sp, loSt, hiSt, [], []);
    ghost var stLo, stHi := [] + [loSt], [] + [hiSt];
    ghost var own := RunningStarts(f0, ec, loSt, hiSt);
    hide OnStack;
    while sp > 0
      invariant 0 <= sp <= 18 && |stLo| == |stHi| == sp
      invariant OnStack(stackLo[..], stackHi[..], sp, stLo, stHi)
      invariant eclass[..] == ec
      invariant Running(f0, fmap[..], ec, loSt, hiSt, stLo, stHi, own)
      decreases Work(stLo, stHi)
    {
      assert sp < STACK_SIZE - 1;
      var lo, hi;
      ghost var f, belowLo, belowHi := fmap[..], stLo, stHi;
      sp, lo, hi, belowLo, belowHi := Pop(stackLo, stackHi, sp, stLo, stHi);
      RunningTop(f0, f, ec, loSt, hiSt, belowLo, belowHi, own, lo, hi);
      if hi - lo < SMALL_THRESH {
        SimpleSort(fmap, eclass, lo, hi);
        own := RunningSorted(f0, f, fmap[..], ec, loSt, hiSt, belowLo, belowHi, own, lo, hi);
        stLo, stHi := belowLo, belowHi;
      } else {
        r := (r * 7621 + 1) % 32768;
        var r3 := r % 3;
        var pick := if r3 == 0 then lo else if r3 == 1 then (lo + hi) / 2 else hi;
        var med := eclass[fmap[pick]];
        var sorted, n, m := Partition(fmap, eclass, med, lo, hi, pick);
        if sorted {
          own := RunningSorted(f0, f, fmap[..], ec, loSt, hiSt, belowLo, belowHi, own, lo, hi);
          stLo, stHi := belowLo, belowHi;
        } else if n - lo > hi - m {
          own := RunningSplit(f0, f, fmap[..], ec, loSt, hiSt, belowLo, belowHi, own, lo, hi, med, n, m, lo, n, m, hi);
          stLo, stHi := belowLo + [lo] + [m], belowHi + [n] + [hi];
          sp := Push(stackLo, stackHi, sp, lo, n, belowLo, belowHi);
          sp := Push(stackLo, stackHi, sp, m, hi, belowLo + [lo], belowHi + [n]);
        } else {
          own := RunningSplit(f0, f, fmap[..], ec, loSt, hiSt, belowLo, belowHi, own, lo, hi, med, n, m, m, hi, lo, n);
          stLo, stHi := belowLo + [m] + [lo], belowHi + [hi] + [n];
          sp := Push(stackLo, stackHi, sp, m, hi, belowLo, belowHi);
          sp := Push(stackLo, stackHi, sp, lo, n, belowLo + [m], belowHi + [hi]);
        }
      }
    }
    RunningEnds(f0, fmap[..], ec, loSt, hiSt, own);
  }
}
