/**
 Cyclic rotations of a block of bytes and their lexicographic order, the order the block sort of
 dep/bzip2/blocksort.c is about.
 */
module Rotations {

  /** All entries are byte values. */
  ghost predicate Bytes(s: seq<int>) {
    forall i :: 0 <= i < |s| ==> 0 <= s[i] < 256
  }

  /** i reduced to 0..n-1, for i below 2n. */
  function Wrap(i: int, n: int): int {
    if i >= n then i - n else i
  }

  /** The first h bytes read cyclically from position x. */
  ghost function Cyclic(b: seq<int>, x: int, h: nat): (r: seq<int>)
    requires 0 <= x < |b|
    ensures |r| == h
    decreases h
  {
    if h == 0 then [] else [b[x]] + Cyclic(b, Wrap(x + 1, |b|), h - 1)
  }

  /** The rotation of b that starts at x. */
  ghost function Rotation(b: seq<int>, x: int): (r: seq<int>)
    requires 0 <= x < |b|
    ensures |r| == |b|
  {
    b[x..] + b[..x]
  }

  /** Lexicographic order; a proper prefix comes first. */
  ghost predicate LexLe(u: seq<int>, v: seq<int>) {
    if u == [] then true
    else if v == [] then false
    else u[0] < v[0] || (u[0] == v[0] && LexLe(u[1..], v[1..]))
  }

  lemma {:induction false} LexReflexive(u: seq<int>)
    ensures LexLe(u, u)
  {
    if u != [] { LexReflexive(u[1..]); }
  }

  lemma {:induction false} LexAntisymmetric(u: seq<int>, v: seq<int>)
    requires LexLe(u, v) && LexLe(v, u)
    ensures u == v
  {
    if u != [] {
      LexAntisymmetric(u[1..], v[1..]);
      assert u == [u[0]] + u[1..] && v == [v[0]] + v[1..];
    }
  }

  lemma {:induction false} LexTransitive(u: seq<int>, v: seq<int>, w: seq<int>)
    requires LexLe(u, v) && LexLe(v, w)
    ensures LexLe(u, w)
  {
    if u != [] && u[0] == v[0] == w[0] { LexTransitive(u[1..], v[1..], w[1..]); }
  }

  /** Equal-length heads decide first; the tails only break a tie. */
  lemma {:induction false} LexAppend(u: seq<int>, v: seq<int>, s: seq<int>, t: seq<int>)
    requires |u| == |v|
    ensures LexLe(u + s, v + t) <==> if u == v then LexLe(s, t) else LexLe(u, v)
  {
    if u == [] {
      assert u + s == s && v + t == t;
    } else {
      LexAppend(u[1..], v[1..], s, t);
      assert (u + s)[1..] == u[1..] + s && (v + t)[1..] == v[1..] + t;
      assert u == [u[0]] + u[1..] && v == [v[0]] + v[1..];
    }
  }

  lemma {:induction false} CyclicSplit(b: seq<int>, x: int, h: nat, k: nat)
    requires 0 <= x < |b| && h <= |b|
    ensures Cyclic(b, x, h + k) == Cyclic(b, x, h) + Cyclic(b, Wrap(x + h, |b|), k)
    decreases h
  {
    if h > 0 {
      var y := Wrap(x + 1, |b|);
      CyclicSplit(b, y, h - 1, k);
      assert Wrap(y + (h - 1), |b|) == Wrap(x + h, |b|);
      assert Cyclic(b, x, h + k) == [b[x]] + (Cyclic(b, y, h - 1) + Cyclic(b, Wrap(x + h, |b|), k));
    }
  }

  lemma {:induction false} CyclicStraight(b: seq<int>, x: int, h: nat)
    requires 0 <= x < |b| && x + h <= |b|
    ensures Cyclic(b, x, h) == b[x..x + h]
    decreases h
  {
    if h == 1 {
      assert Cyclic(b, x, 1) == [b[x]] + Cyclic(b, Wrap(x + 1, |b|), 0);
    } else if h > 1 {
      CyclicStraight(b, x + 1, h - 1);
      assert b[x..x + h] == [b[x]] + b[x + 1..x + h];
    }
  }

  /** Reading a whole block cyclically gives the rotation. */
  lemma CyclicIsRotation(b: seq<int>, x: int)
    requires 0 <= x < |b|
    ensures Cyclic(b, x, |b|) == Rotation(b, x)
  {
    CyclicSplit(b, x, |b| - x, x);
    CyclicStraight(b, x, |b| - x);
    if x > 0 {
      CyclicStraight(b, 0, x);
    }
  }

  /** f lists positions of b in non-decreasing order of the first h bytes read from them. */
  ghost predicate OrderedTo(b: seq<int>, f: seq<int>, h: nat) {
    && |f| == |b|
    && (forall i :: 0 <= i < |f| ==> 0 <= f[i] < |b|)
    && (forall i, j :: 0 <= i <= j < |f| ==> LexLe(Cyclic(b, f[i], h), Cyclic(b, f[j], h)))
  }

  /** f lists all rotations of b in non-decreasing lexicographic order. */
  ghost predicate SortsRotations(b: seq<int>, f: seq<int>) {
    && |f| == |b|
    && (forall i :: 0 <= i < |f| ==> 0 <= f[i] < |b|)
    && (forall i, j :: 0 <= i <= j < |f| ==> LexLe(Rotation(b, f[i]), Rotation(b, f[j])))
  }

  /** Order on a longer prefix refines the order on a shorter one. */
  lemma LongerRefines(b: seq<int>, x: int, y: int, h: nat, k: nat)
    requires 0 <= x < |b| && 0 <= y < |b| && h <= |b|
    requires LexLe(Cyclic(b, x, h + k), Cyclic(b, y, h + k))
    ensures LexLe(Cyclic(b, x, h), Cyclic(b, y, h))
  {
    CyclicSplit(b, x, h, k);
    CyclicSplit(b, y, h, k);
    LexAppend(Cyclic(b, x, h), Cyclic(b, y, h), Cyclic(b, Wrap(x + h, |b|), k), Cyclic(b, Wrap(y + h, |b|), k));
    LexReflexive(Cyclic(b, x, h));
  }

  /** Order by at least |b| bytes, or by fewer bytes that already tell all rotations apart, sorts them. */
  lemma OrderedEnough(b: seq<int>, f: seq<int>, h: nat)
    requires OrderedTo(b, f, h)
    requires h >= |b| || forall i, j :: 0 <= i < j < |f| ==> Cyclic(b, f[i], h) != Cyclic(b, f[j], h)
    ensures SortsRotations(b, f)
  {
    forall i, j | 0 <= i <= j < |f| ensures LexLe(Rotation(b, f[i]), Rotation(b, f[j])) {
      if h < |b| && i == j {
        LexReflexive(Rotation(b, f[i]));
      } else {
        PairOrdered(b, f[i], f[j], h);
      }
    }
  }

  /** Order on the first h bytes is the order of the rotations when h bytes are all, or tell the two apart. */
  lemma PairOrdered(b: seq<int>, x: int, y: int, h: nat)
    requires 0 <= x < |b| && 0 <= y < |b| && LexLe(Cyclic(b, x, h), Cyclic(b, y, h))
    requires h >= |b| || Cyclic(b, x, h) != Cyclic(b, y, h)
    ensures LexLe(Rotation(b, x), Rotation(b, y))
  {
    hide *;
    var n := |b|;
    CyclicIsRotation(b, x);
    CyclicIsRotation(b, y);
    if h >= n {
      LongerRefines(b, x, y, n, h - n);
    } else {
      FirstTells(b, x, y, h, n - h);
    }
  }

  lemma FirstTells(b: seq<int>, x: int, y: int, h: nat, k: nat)
    requires 0 <= x < |b| && 0 <= y < |b| && h <= |b|
    requires LexLe(Cyclic(b, x, h), Cyclic(b, y, h)) && Cyclic(b, x, h) != Cyclic(b, y, h)
    ensures LexLe(Cyclic(b, x, h + k), Cyclic(b, y, h + k))
  {
    CyclicSplit(b, x, h, k);
    CyclicSplit(b, y, h, k);
    LexAppend(Cyclic(b, x, h), Cyclic(b, y, h), Cyclic(b, Wrap(x + h, |b|), k), Cyclic(b, Wrap(y + h, |b|), k));
  }
}
