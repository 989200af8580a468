/**
 Occurrence counts and stable ranks: what a counting sort computes from its frequency tables.
 */
module Counting {
  import opened Permutations

  /** Occurrences of c in s. */
  ghost function Count(s: seq<int>, c: int): (r: nat)
    ensures r <= |s|
  {
    if s == [] then 0 else Count(s[..|s| - 1], c) + if s[|s| - 1] == c then 1 else 0
  }

  /** Entries of s smaller than c. */
  ghost function Below(s: seq<int>, c: int): (r: nat)
    ensures r <= |s|
  {
    if s == [] then 0 else Below(s[..|s| - 1], c) + if s[|s| - 1] < c then 1 else 0
  }

  lemma CountStep(s: seq<int>, i: int, c: int)
    requires 0 <= i < |s|
    ensures Count(s[..i + 1], c) == Count(s[..i], c) + if s[i] == c then 1 else 0
  {
    assert s[..i + 1][..i] == s[..i];
  }

  lemma {:induction false} BelowNext(s: seq<int>, c: int)
    ensures Below(s, c + 1) == Below(s, c) + Count(s, c)
  {
    if s != [] { BelowNext(s[..|s| - 1], c); }
  }

  lemma {:induction false} BelowMonotone(s: seq<int>, c: int, d: int)
    requires c <= d
    ensures Below(s, c) <= Below(s, d)
  {
    if s != [] { BelowMonotone(s[..|s| - 1], c, d); }
  }

  lemma {:induction false} BelowEnds(s: seq<int>, lo: int, hi: int)
    requires forall i :: 0 <= i < |s| ==> lo <= s[i] < hi
    ensures Below(s, lo) == 0 && Below(s, hi) == |s|
  {
    if s != [] { BelowEnds(s[..|s| - 1], lo, hi); }
  }

  lemma {:induction false} CountGrows(s: seq<int>, i: int, j: int, c: int)
    requires 0 <= i <= j <= |s|
    ensures Count(s[..i], c) <= Count(s[..j], c)
    ensures i < j && s[i] == c ==> Count(s[..i], c) < Count(s[..j], c)
    decreases j
  {
    if i < j {
      CountStep(s, j - 1, c);
      CountGrows(s, i, j - 1, c);
      CountStep(s, i, c);
    }
  }

  lemma CountBefore(s: seq<int>, i: int)
    requires 0 <= i < |s|
    ensures Count(s[..i], s[i]) < Count(s, s[i])
  {
    CountGrows(s, i, |s|, s[i]);
    assert s[..|s|] == s;
  }

  /** The position of entry i when s is sorted stably. */
  ghost function Rank(s: seq<int>, i: int): (r: nat)
    requires 0 <= i < |s|
  {
    Below(s, s[i]) + Count(s[..i], s[i])
  }

  lemma RankRange(s: seq<int>, i: int)
    requires 0 <= i < |s|
    ensures Below(s, s[i]) <= Rank(s, i) < Below(s, s[i] + 1) <= |s|
  {
    hide Below, Count;
    CountBefore(s, i);
    BelowNext(s, s[i]);
  }

  lemma RankOrder(s: seq<int>, i: int, j: int)
    requires 0 <= i < |s| && 0 <= j < |s|
    requires s[i] < s[j] || (s[i] == s[j] && i < j)
    ensures Rank(s, i) < Rank(s, j)
  {
    RankRange(s, i);
    RankRange(s, j);
    if s[i] < s[j] {
      BelowMonotone(s, s[i] + 1, s[j]);
    } else {
      CountGrows(s, i, j, s[i]);
    }
  }

  ghost function Ranks(s: seq<int>): (r: seq<int>)
    ensures |r| == |s| && forall i :: 0 <= i < |s| ==> r[i] == Rank(s, i)
  {
    seq(|s|, i requires 0 <= i < |s| => Rank(s, i))
  }

  lemma RanksPermute(s: seq<int>)
    ensures IsPermutation(Ranks(s))
  {
    var r := Ranks(s);
    forall i | 0 <= i < |r| ensures 0 <= r[i] < |r| {
      RankRange(s, i);
    }
    forall i, j | 0 <= i < j < |r| ensures r[i] != r[j] {
      if s[i] <= s[j] { RankOrder(s, i, j); } else { RankOrder(s, j, i); }
    }
  }

  /** Every position is the rank of exactly one entry; its value is pinned by the counts. */
  lemma AtRank(s: seq<int>, p: int) returns (i: int)
    requires 0 <= p < |s|
    ensures 0 <= i < |s| && Rank(s, i) == p
    ensures Below(s, s[i]) <= p < Below(s, s[i] + 1)
  {
    RanksPermute(s);
    Onto(Ranks(s), p);
    i :| 0 <= i < |s| && Ranks(s)[i] == p;
    RankRange(s, i);
  }
}
