/**
 Rearrangements of sequences: permutations of 0..n-1, and shuffles that stay inside a range.
 */
module Permutations {

  /** s lists each of 0..|s|-1 exactly once. */
  ghost predicate IsPermutation(s: seq<int>) {
    && (forall i :: 0 <= i < |s| ==> 0 <= s[i] < |s|)
    && (forall i, j :: 0 <= i < j < |s| ==> s[i] != s[j])
  }

  ghost function Upto(n: nat): (r: set<int>)
    ensures |r| == n
    ensures forall x :: x in r <==> 0 <= x < n
  {
    if n == 0 then {} else Upto(n - 1) + {n - 1}
  }

  ghost function Elements(s: seq<int>): set<int> {
    set i | 0 <= i < |s| :: s[i]
  }

  lemma {:induction false} DistinctCount(s: seq<int>)
    requires forall i, j :: 0 <= i < j < |s| ==> s[i] != s[j]
    ensures |Elements(s)| == |s|
  {
    if s != [] {
      var t := s[..|s| - 1];
      DistinctCount(t);
      assert Elements(s) == Elements(t) + {s[|s| - 1]};
      assert s[|s| - 1] !in Elements(t);
    } else {
      assert Elements(s) == {};
    }
  }

  lemma SubsetOfSameSize(a: set<int>, b: set<int>)
    requires a <= b && |a| == |b|
    ensures a == b
  {
    assert b == a + (b - a);
    assert |b| == |a| + |b - a|;
  }

  /** Pigeonhole: a permutation takes every value. */
  lemma Onto(s: seq<int>, v: int)
    requires IsPermutation(s) && 0 <= v < |s|
    ensures exists i :: 0 <= i < |s| && s[i] == v
  {
    DistinctCount(s);
    SubsetOfSameSize(Elements(s), Upto(|s|));
    assert v in Elements(s);
  }

  lemma MultiplicityOne(s: seq<int>)
    requires IsPermutation(s)
    ensures forall v :: multiset(s)[v] == if 0 <= v < |s| then 1 else 0
  {
    forall v ensures multiset(s)[v] == if 0 <= v < |s| then 1 else 0 {
      if 0 <= v < |s| {
        Onto(s, v);
        var i :| 0 <= i < |s| && s[i] == v;
        OnlyThere(s, i);
      } else {
        assert v !in s;
      }
    }
  }

  lemma OnlyThere(s: seq<int>, i: int)
    requires IsPermutation(s) && 0 <= i < |s|
    ensures multiset(s)[s[i]] == 1
  {
    assert s == s[..i] + [s[i]] + s[i + 1..];
    assert s[i] !in s[..i] && s[i] !in s[i + 1..];
    hide IsPermutation;
    assert multiset(s) == multiset(s[..i]) + multiset{s[i]} + multiset(s[i + 1..]);
  }

  lemma RepeatedCountsTwice(s: seq<int>, i: int, j: int)
    requires 0 <= i < j < |s| && s[i] == s[j]
    ensures multiset(s)[s[i]] >= 2
  {
    assert s == s[..j] + [s[j]] + s[j + 1..];
    assert s[..j] == s[..i] + [s[i]] + s[i + 1..j];
  }

  /** Any rearrangement of a permutation is a permutation. */
  lemma Rearranged(a: seq<int>, b: seq<int>)
    requires IsPermutation(a) && multiset(a) == multiset(b)
    ensures IsPermutation(b)
  {
    assert |a| == |multiset(a)| == |multiset(b)| == |b|;
    MultiplicityOne(a);
    forall i | 0 <= i < |b| ensures 0 <= b[i] < |b| {
      assert b[i] in multiset(b);
      assert b[i] in multiset(a);
    }
    forall i, j | 0 <= i < j < |b| ensures b[i] != b[j] {
      if b[i] == b[j] { RepeatedCountsTwice(b, i, j); }
    }
  }

  /** b is a with the entries of [lo, hi) rearranged and nothing else touched. */
  ghost predicate Shuffled(a: seq<int>, b: seq<int>, lo: int, hi: int) {
    && 0 <= lo <= hi <= |a|
    && |a| == |b|
    && a[..lo] == b[..lo]
    && a[hi..] == b[hi..]
    && multiset(a[lo..hi]) == multiset(b[lo..hi])
  }

  lemma ShuffledReflexive(a: seq<int>, lo: int, hi: int)
    requires 0 <= lo <= hi <= |a|
    ensures Shuffled(a, a, lo, hi)
  {
  }

  lemma ShuffledReverse(a: seq<int>, b: seq<int>, lo: int, hi: int)
    requires Shuffled(a, b, lo, hi)
    ensures Shuffled(b, a, lo, hi)
  {
  }

  lemma ShuffledTransitive(a: seq<int>, b: seq<int>, c: seq<int>, lo: int, hi: int)
    requires Shuffled(a, b, lo, hi) && Shuffled(b, c, lo, hi)
    ensures Shuffled(a, c, lo, hi)
  {
  }

  lemma ShuffledWidens(a: seq<int>, b: seq<int>, lo: int, hi: int, lo': int, hi': int)
    requires Shuffled(a, b, lo, hi)
    requires 0 <= lo' <= lo && hi <= hi' <= |a|
    ensures Shuffled(a, b, lo', hi')
  {
    assert a[lo'..hi'] == a[..lo][lo'..] + a[lo..hi] + a[hi..][..hi' - hi];
    assert b[lo'..hi'] == b[..lo][lo'..] + b[lo..hi] + b[hi..][..hi' - hi];
    assert a[..lo'] == a[..lo][..lo'];
    assert b[..lo'] == b[..lo][..lo'];
    assert a[hi'..] == a[hi..][hi' - hi..];
    assert b[hi'..] == b[hi..][hi' - hi..];
  }

  lemma ShuffledAll(a: seq<int>, b: seq<int>, lo: int, hi: int)
    requires Shuffled(a, b, lo, hi)
    ensures multiset(a) == multiset(b)
  {
    ShuffledWidens(a, b, lo, hi, 0, |a|);
    assert a[0..|a|] == a && b[0..|a|] == b;
  }

  lemma ShuffledSwap(a: seq<int>, i: int, j: int, lo: int, hi: int)
    requires 0 <= lo <= i < hi <= |a| && lo <= j < hi
    ensures Shuffled(a, a[i := a[j]][j := a[i]], lo, hi)
  {
    var b := a[i := a[j]][j := a[i]];
    var s := a[lo..hi];
    assert b[lo..hi] == s[i - lo := s[j - lo]][j - lo := s[i - lo]];
  }

  /** What holds of every value in the range still does after a shuffle. */
  lemma ShuffledForall(a: seq<int>, b: seq<int>, lo: int, hi: int, p: int -> bool)
    requires Shuffled(a, b, lo, hi)
    requires forall i :: lo <= i < hi ==> p(a[i])
    ensures forall i :: lo <= i < hi ==> p(b[i])
  {
    forall i | lo <= i < hi ensures p(b[i]) {
      assert b[i] == b[lo..hi][i - lo];
      assert b[i] in multiset(b[lo..hi]);
      assert b[i] in a[lo..hi];
    }
  }

  lemma ShuffledOutside(a: seq<int>, b: seq<int>, lo: int, hi: int)
    requires Shuffled(a, b, lo, hi)
    ensures forall i :: 0 <= i < lo || hi <= i < |a| ==> a[i] == b[i]
  {
    forall i | 0 <= i < lo || hi <= i < |a| ensures a[i] == b[i] {
      if i < lo {
        assert a[i] == a[..lo][i];
        assert b[i] == b[..lo][i];
      } else {
        assert a[i] == a[hi..][i - hi];
        assert b[i] == b[hi..][i - hi];
      }
    }
  }
}
