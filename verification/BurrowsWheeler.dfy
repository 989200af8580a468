/**
 The Burrows-Wheeler transform and its inverse: the last column taken in dep/bzip2/compress.c and the
 successor vector followed in dep/bzip2/decompress.c.
 */
module BurrowsWheeler {
  import opened Permutations
  import opened Rotations
  import opened Counting

  /** Position x moved back by one, cyclically. */
  function Previous(x: int, n: int): int {
    if x - 1 < 0 then x - 1 + n else x - 1
  }

  /** The byte before each listed rotation. */
  ghost function LastColumn(b: seq<int>, ptr: seq<int>): (l: seq<int>)
    requires |ptr| == |b| && forall i :: 0 <= i < |ptr| ==> 0 <= ptr[i] < |b|
    ensures |l| == |b|
  {
    seq(|ptr|, i requires 0 <= i < |ptr| => b[Previous(ptr[i], |b|)])
  }

  lemma RankTaken(l: seq<int>, j: int)
    requires 0 <= j < |l|
    ensures exists i :: 0 <= i < |l| && Rank(l, i) == j && Below(l, l[i]) <= j < Below(l, l[i] + 1)
  {
    var i := AtRank(l, j);
  }

  /** The entry of l whose stable rank is j: the decoder's successor vector. */
  ghost function Thread(l: seq<int>, j: int): (i: int)
    requires 0 <= j < |l|
    ensures 0 <= i < |l| && Rank(l, i) == j
    ensures Below(l, l[i]) <= j < Below(l, l[i] + 1)
  {
    RankTaken(l, j);
    var i :| 0 <= i < |l| && Rank(l, i) == j && Below(l, l[i]) <= j < Below(l, l[i] + 1);
    i
  }

  lemma ThreadOfRank(l: seq<int>, i: int)
    requires 0 <= i < |l|
    ensures 0 <= Rank(l, i) < |l| && Thread(l, Rank(l, i)) == i
  {
    RankRange(l, i);
    var k := Thread(l, Rank(l, i));
    RanksPermute(l);
    assert Ranks(l)[k] == Ranks(l)[i];
  }

  /** The bytes met when the successor vector is followed for k steps from place p. */
  ghost function Walk(l: seq<int>, p: int, k: nat): (r: seq<int>)
    requires 0 <= p < |l|
    ensures |r| == k
    decreases k
  {
    if k == 0 then [] else [l[Thread(l, p)]] + Walk(l, Thread(l, p), k - 1)
  }

  // ----- two sorted lists with the same strings are the same list ---------------------------------

  ghost predicate Ascending(s: seq<seq<int>>) {
    forall i, j :: 0 <= i <= j < |s| ==> LexLe(s[i], s[j])
  }

  ghost function Drop<T>(q: seq<T>, k: int): (r: seq<T>)
    requires 0 <= k < |q|
    ensures |r| == |q| - 1
  {
    q[..k] + q[k + 1..]
  }

  lemma Without<T>(q: seq<T>, k: int)
    requires 0 <= k < |q|
    ensures multiset(q) == multiset(Drop(q, k)) + multiset{q[k]}
  {
    assert q == q[..k] + [q[k]] + q[k + 1..];
  }

  lemma Found<T>(p: seq<T>, q: seq<T>) returns (k: int)
    requires multiset(p) == multiset(q) && p != []
    ensures |p| == |q| && 0 <= k < |q| && q[k] == p[0]
  {
    assert |multiset(p)| == |p| && |multiset(q)| == |q|;
    assert p[0] in multiset(q);
    k :| 0 <= k < |q| && q[k] == p[0];
  }

  lemma SameLength<T>(p: seq<T>, q: seq<T>)
    requires multiset(p) == multiset(q)
    ensures |p| == |q|
  {
    assert |multiset(p)| == |p| && |multiset(q)| == |q|;
  }

  lemma SameHead(r: seq<seq<int>>, s: seq<seq<int>>)
    requires Ascending(r) && Ascending(s) && multiset(r) == multiset(s) && r != []
    ensures |r| == |s| && r[0] == s[0]
  {
    hide LexLe;
    var k := Found(r, s);
    var m := Found(s, r);
    assert LexLe(s[0], s[k]) && LexLe(r[0], r[m]);
    LexAntisymmetric(r[0], s[0]);
  }

  lemma TailsMatch(r: seq<seq<int>>, s: seq<seq<int>>)
    requires Ascending(r) && Ascending(s) && multiset(r) == multiset(s) && r != []
    ensures s != [] && r[0] == s[0]
    ensures multiset(r[1..]) == multiset(s[1..]) && Ascending(r[1..]) && Ascending(s[1..])
  {
    hide LexLe;
    SameHead(r, s);
    Without(r, 0);
    Without(s, 0);
    assert multiset(Drop(r, 0)) == multiset(r) - multiset{r[0]} == multiset(Drop(s, 0));
    assert Drop(r, 0) == r[1..] && Drop(s, 0) == s[1..];
  }

  lemma {:induction false} AscendingUnique(r: seq<seq<int>>, s: seq<seq<int>>)
    requires Ascending(r) && Ascending(s) && multiset(r) == multiset(s)
    ensures r == s
    decreases |r|
  {
    hide *;
    SameLength(r, s);
    if r != [] {
      TailsMatch(r, s);
      AscendingUnique(r[1..], s[1..]);
      assert r == [r[0]] + r[1..] && s == [s[0]] + s[1..];
    }
  }

  ghost function Image(f: int -> seq<int>, p: seq<int>): (r: seq<seq<int>>)
    ensures |r| == |p| && forall i :: 0 <= i < |p| ==> r[i] == f(p[i])
  {
    seq(|p|, i requires 0 <= i < |p| => f(p[i]))
  }

  lemma ImageWithout(f: int -> seq<int>, q: seq<int>, k: int)
    requires 0 <= k < |q|
    ensures multiset(Image(f, q)) == multiset(Image(f, Drop(q, k))) + multiset{f(q[k])}
  {
    var r := Image(f, q);
    Without(r, k);
    assert Image(f, Drop(q, k)) == Drop(r, k);
  }

  lemma {:induction false} ImageOfShuffle(f: int -> seq<int>, p: seq<int>, q: seq<int>)
    requires multiset(p) == multiset(q)
    ensures multiset(Image(f, p)) == multiset(Image(f, q))
    decreases |p|
  {
    hide *;
    SameLength(p, q);
    if p == [] {
      assert q == [];
    } else {
      var k := Found(p, q);
      Without(p, 0);
      Without(q, k);
      assert multiset(Drop(p, 0)) == multiset(p) - multiset{p[0]} == multiset(Drop(q, k));
      ImageWithout(f, p, 0);
      ImageWithout(f, q, k);
      ImageOfShuffle(f, Drop(p, 0), Drop(q, k));
    }
  }

  lemma PermutationsShuffle(p: seq<int>, q: seq<int>)
    requires IsPermutation(p) && IsPermutation(q) && |p| == |q|
    ensures multiset(p) == multiset(q)
  {
    MultiplicityOne(p);
    MultiplicityOne(q);
  }

  // ----- the transform inverted ---------------------------------------------------------------------

  /** A rotation read one byte earlier is its preceding byte followed by all but its last byte. */
  lemma RotationBefore(b: seq<int>, x: int)
    requires 0 <= x < |b|
    ensures 0 <= Previous(x, |b|) < |b|
    ensures Rotation(b, Previous(x, |b|)) == [b[Previous(x, |b|)]] + Rotation(b, x)[..|b| - 1]
  {
    var n := |b|;
    if x == 0 {
      assert Rotation(b, n - 1) == [b[n - 1]] + b[..n - 1];
    } else {
      assert b[x - 1..] == [b[x - 1]] + b[x..];
      assert Rotation(b, x)[..n - 1] == b[x..] + b[..x - 1];
    }
  }

  /** The places as the decoder threads them, each moved back one byte. */
  ghost function Threaded(b: seq<int>, ptr: seq<int>): (q: seq<int>)
    requires |ptr| == |b| && IsPermutation(ptr)
    ensures |q| == |b|
    ensures forall j :: 0 <= j < |q| ==> q[j] == Previous(ptr[Thread(LastColumn(b, ptr), j)], |b|)
  {
    seq(|b|, j requires 0 <= j < |b| => Previous(ptr[Thread(LastColumn(b, ptr), j)], |b|))
  }

  lemma ThreadedPermutes(b: seq<int>, ptr: seq<int>)
    requires |ptr| == |b| && IsPermutation(ptr)
    ensures IsPermutation(Threaded(b, ptr))
  {
    var q, l := Threaded(b, ptr), LastColumn(b, ptr);
    forall i, j | 0 <= i < j < |q| ensures q[i] != q[j] {
      assert Rank(l, Thread(l, i)) == i && Rank(l, Thread(l, j)) == j;
      assert Thread(l, i) != Thread(l, j);
    }
  }

  /** Stable ranking of the last column keeps the rotations read one byte earlier in order. */
  lemma ThreadedAscend(b: seq<int>, ptr: seq<int>, j: int, k: int)
    requires IsPermutation(ptr) && SortsRotations(b, ptr) && 0 <= j <= k < |b|
    ensures 0 <= Threaded(b, ptr)[j] < |b| && 0 <= Threaded(b, ptr)[k] < |b|
    ensures LexLe(Rotation(b, Threaded(b, ptr)[j]), Rotation(b, Threaded(b, ptr)[k]))
  {
    hide LexLe, Rotation;
    var n, l := |b|, LastColumn(b, ptr);
    var i, m := Thread(l, j), Thread(l, k);
    RotationBefore(b, ptr[i]);
    RotationBefore(b, ptr[m]);
    var u, v := Rotation(b, ptr[i]), Rotation(b, ptr[m]);
    if j == k {
      LexReflexive(Rotation(b, Threaded(b, ptr)[j]));
    } else {
      StableOrder(l, i, m);
      HeadFirst(l[i], u[..n - 1], l[m], v[..n - 1]);
      if l[i] == l[m] { PrefixesOrdered(u, v, n - 1); }
    }
  }

  lemma StableOrder(l: seq<int>, i: int, m: int)
    requires 0 <= i < |l| && 0 <= m < |l| && Rank(l, i) < Rank(l, m)
    ensures l[i] < l[m] || (l[i] == l[m] && i < m)
  {
    if l[m] < l[i] || (l[m] == l[i] && m < i) { RankOrder(l, m, i); }
  }

  lemma HeadFirst(c: int, u: seq<int>, d: int, v: seq<int>)
    ensures LexLe([c] + u, [d] + v) <==> c < d || (c == d && LexLe(u, v))
  {
    assert ([c] + u)[1..] == u && ([d] + v)[1..] == v;
  }

  lemma PrefixesOrdered(u: seq<int>, v: seq<int>, k: nat)
    requires |u| == |v| && k <= |u| && LexLe(u, v)
    ensures LexLe(u[..k], v[..k])
  {
    assert u == u[..k] + u[k..] && v == v[..k] + v[k..];
    LexAppend(u[..k], v[..k], u[k..], v[k..]);
    LexReflexive(u[..k]);
  }

  /**
   The step of the inverse. Following the successor vector from a place moves its rotation on by one
   byte, as a string: with equal rotations the place itself may differ.
   */
  lemma ThreadStep(b: seq<int>, ptr: seq<int>, j: int)
    requires IsPermutation(ptr) && SortsRotations(b, ptr) && 0 <= j < |b|
    ensures 0 <= Threaded(b, ptr)[j] < |b|
    ensures Rotation(b, Threaded(b, ptr)[j]) == Rotation(b, ptr[j])
  {
    hide LexLe, Rotation;
    var q := Threaded(b, ptr);
    ThreadedPermutes(b, ptr);
    PermutationsShuffle(ptr, q);
    var f := x => if 0 <= x < |b| then Rotation(b, x) else [];
    ImageOfShuffle(f, ptr, q);
    forall i, k | 0 <= i <= k < |b| ensures LexLe(Image(f, q)[i], Image(f, q)[k]) {
      ThreadedAscend(b, ptr, i, k);
    }
    AscendingUnique(Image(f, ptr), Image(f, q));
    assert Image(f, ptr)[j] == Image(f, q)[j];
  }

  lemma RotationFirst(b: seq<int>, x: int)
    requires 0 <= x < |b|
    ensures Rotation(b, x)[0] == b[x]
    ensures Rotation(b, Wrap(x + 1, |b|)) == Rotation(b, x)[1..] + [Rotation(b, x)[0]]
  {
    if x + 1 == |b| {
      assert b[x..] == [b[x]];
    } else {
      assert b[x..] == [b[x]] + b[x + 1..];
      assert b[..x + 1] == b[..x] + [b[x]];
    }
  }

  /** One step of the walk yields the next byte of the block and moves to its rotation. */
  lemma WalkOne(b: seq<int>, ptr: seq<int>, p: int, x: int)
    requires IsPermutation(ptr) && SortsRotations(b, ptr) && 0 <= p < |b|
    requires 0 <= x < |b| && Rotation(b, ptr[p]) == Rotation(b, x)
    ensures var l := LastColumn(b, ptr); var q := Thread(l, p);
      0 <= q < |l| == |b| && l[q] == b[x] && Rotation(b, ptr[q]) == Rotation(b, Wrap(x + 1, |b|))
  {
    hide LexLe, Rotation;
    var l := LastColumn(b, ptr);
    var q := Thread(l, p);
    var y := Previous(ptr[q], |b|);
    ThreadStep(b, ptr, p);
    assert y == Threaded(b, ptr)[p];
    RotationFirst(b, y);
    RotationFirst(b, x);
    assert l[q] == b[y] == b[x];
    assert Wrap(y + 1, |b|) == ptr[q];
  }

  lemma {:induction false} WalkFrom(b: seq<int>, ptr: seq<int>, p: int, x: int, k: nat)
    requires IsPermutation(ptr) && SortsRotations(b, ptr) && 0 <= p < |b|
    requires 0 <= x < |b| && x + k <= |b| && Rotation(b, ptr[p]) == Rotation(b, x)
    ensures Walk(LastColumn(b, ptr), p, k) == b[x..x + k]
    decreases k
  {
    hide *;
    ColumnLength(b, ptr);
    if k > 0 {
      var l := LastColumn(b, ptr);
      var q := Thread(l, p);
      WalkOne(b, ptr, p, x);
      WalkUnfolds(l, p, k);
      SliceHead(b, x, k);
      if k > 1 {
        WrapNext(x, |b|);
        WalkFrom(b, ptr, q, x + 1, k - 1);
      } else {
        WalkNothing(l, q);
      }
    } else {
      WalkNothing(LastColumn(b, ptr), p);
    }
  }

  lemma SliceHead(b: seq<int>, x: int, k: nat)
    requires 0 <= x && 0 < k && x + k <= |b|
    ensures b[x..x + k] == [b[x]] + b[x + 1..x + 1 + (k - 1)]
    ensures k == 1 ==> b[x + 1..x + 1 + (k - 1)] == []
  {
  }

  lemma ColumnLength(b: seq<int>, ptr: seq<int>)
    requires IsPermutation(ptr) && SortsRotations(b, ptr)
    ensures |LastColumn(b, ptr)| == |b| == |ptr| && forall i :: 0 <= i < |ptr| ==> 0 <= ptr[i] < |b|
  {
  }

  lemma WalkUnfolds(l: seq<int>, p: int, k: nat)
    requires 0 <= p < |l| && k > 0
    ensures Walk(l, p, k) == [l[Thread(l, p)]] + Walk(l, Thread(l, p), k - 1)
  {
  }

  lemma WalkNothing(l: seq<int>, p: int)
    requires 0 <= p < |l|
    ensures Walk(l, p, 0) == []
  {
  }

  lemma WrapNext(x: int, n: int)
    requires 0 <= x && x + 1 < n
    ensures Wrap(x + 1, n) == x + 1
  {
  }

  /**
   The inverse transform is right: from any sorted list of the rotations, and any place that lists
   rotation 0, the walk over the last column gives back the block.
   */
  lemma WalkInverts(b: seq<int>, ptr: seq<int>, origPtr: int)
    requires IsPermutation(ptr) && SortsRotations(b, ptr)
    requires 0 <= origPtr < |b| && ptr[origPtr] == 0
    ensures Walk(LastColumn(b, ptr), origPtr, |b|) == b
  {
    WalkFrom(b, ptr, origPtr, 0, |b|);
    assert b[0..|b|] == b;
  }
}
