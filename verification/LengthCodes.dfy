/**
 The codes for match lengths and distances and their extra bits: the tables that deflate makes for itself
 (dep/zlib/trees.c:62-66, 250-285; dep/zlib/deflate.h:303-306), which agree with those that inflate has.
 */
module LengthCodes {
  import opened Powers
  import opened TableDecoding

  const EXTRA_LBITS: seq<nat> := [0, 0, 0, 0, 0, 0, 0, 0, 1, 1, 1, 1, 2, 2, 2, 2, 3, 3, 3, 3, 4, 4, 4, 4, 5, 5, 5, 5, 0]
  const EXTRA_DBITS: seq<nat> := [0, 0, 0, 0, 1, 1, 2, 2, 3, 3, 4, 4, 5, 5, 6, 6, 7, 7, 8, 8, 9, 9, 10, 10, 11, 11, 12,
      12, 13, 13]

  /** Length lc + 3 is sent as code c with the extra bits of lc - base, and inflate makes the length of them again. */
  ghost predicate LengthCoded(lc: int, c: int, base: int) {
    && 0 <= c < 29 && LEXT[c] == 16 + EXTRA_LBITS[c]
    && if EXTRA_LBITS[c] == 0 then LBASE[c] == lc + 3
       else 0 <= lc - base < Pow2(EXTRA_LBITS[c]) && LBASE[c] + (lc - base) == lc + 3
  }

  /** Distance dist + 1, likewise. */
  ghost predicate DistanceCoded(dist: int, c: int, base: int) {
    && 0 <= c < 30 && DEXT[c] == 16 + EXTRA_DBITS[c]
    && 0 <= dist - base < Pow2(EXTRA_DBITS[c]) && DBASE[c] + (dist - base) == dist + 1
  }

  /** The lengths below n have codes below m. */
  ghost predicate LengthsBelow(code: seq<int>, base: seq<int>, n: int, m: int) {
    && |code| == 256 && |base| == 29
    && forall lc {:trigger code[lc]} :: 0 <= lc < n && lc < 256 ==>
         0 <= code[lc] < m && code[lc] < 29 && LengthCoded(lc, code[lc], base[code[lc]])
  }

  /** Where a distance less one is looked up. */
  function Place(dist: int): int {
    if dist < 256 then dist else 256 + dist / 128
  }

  ghost predicate DistancesBelow(code: seq<int>, base: seq<int>, n: int, m: int) {
    && |code| == 512 && |base| == 30
    && forall dist {:trigger Place(dist)} :: 0 <= dist < n && dist < 32768 ==>
         0 <= code[Place(dist)] < m && code[Place(dist)] < 30
         && DistanceCoded(dist, code[Place(dist)], base[code[Place(dist)]])
  }

  /** The tables of both sides have the same steps. */
  lemma LengthStep(c: nat)
    requires c < 28
    ensures |EXTRA_LBITS| == 29 && |LBASE| == |LEXT| == 31 && LEXT[c] == 16 + EXTRA_LBITS[c]
    ensures (if c == 27 then 259 else LBASE[c + 1]) == LBASE[c] + Pow2(EXTRA_LBITS[c])
  {
    hide *;
    LengthExtra(c);
    LengthBase(c);
  }

  lemma LengthExtra(c: nat)
    requires c < 29
    ensures |EXTRA_LBITS| == 29 && |LEXT| == 31 && LEXT[c] == 16 + EXTRA_LBITS[c]
  {
    hide LBASE;
  }

  lemma LengthBase(c: nat)
    requires c < 28
    ensures |EXTRA_LBITS| == 29 && |LBASE| == 31
    ensures (if c == 27 then 259 else LBASE[c + 1]) == LBASE[c] + Pow2(EXTRA_LBITS[c])
  {
    hide LEXT, Pow2;
    Small();
  }

  lemma DistanceStep(c: nat)
    requires c < 30
    ensures |EXTRA_DBITS| == 30 && |DBASE| == |DEXT| == 32 && DEXT[c] == 16 + EXTRA_DBITS[c]
    ensures (if c == 29 then 32769 else DBASE[c + 1]) == DBASE[c] + Pow2(EXTRA_DBITS[c])
    ensures c >= 16 ==> EXTRA_DBITS[c] >= 7
  {
    hide *;
    DistanceExtra(c);
    if c < 16 { DistanceBase(c); } else { LongDistanceBase(c); }
  }

  lemma DistanceExtra(c: nat)
    requires c < 30
    ensures |EXTRA_DBITS| == 30 && |DEXT| == 32 && DEXT[c] == 16 + EXTRA_DBITS[c]
  {
  }

  lemma DistanceBase(c: nat)
    requires c < 16
    ensures |EXTRA_DBITS| == 30 && |DBASE| == 32 && DBASE[c + 1] == DBASE[c] + Pow2(EXTRA_DBITS[c])
  {
    hide DEXT, Pow2;
    Small();
  }

  lemma LongDistanceBase(c: nat)
    requires 16 <= c < 30
    ensures |EXTRA_DBITS| == 30 && |DBASE| == 32 && EXTRA_DBITS[c] >= 7
    ensures (if c == 29 then 32769 else DBASE[c + 1]) == DBASE[c] + Pow2(EXTRA_DBITS[c])
  {
    hide DEXT, Pow2;
    Small();
    Large();
  }

  lemma Small()
    ensures Pow2(0) == 1 && Pow2(1) == 2 && Pow2(2) == 4 && Pow2(3) == 8 && Pow2(4) == 16 && Pow2(5) == 32
    ensures Pow2(6) == 64 && Pow2(7) == 128
  {
    assert Pow2(4) == 16;
    assert Pow2(6) == 64;
  }

  lemma Large()
    ensures Pow2(8) == 256 && Pow2(9) == 512 && Pow2(10) == 1024 && Pow2(11) == 2048 && Pow2(12) == 4096
    ensures Pow2(13) == 8192
  {
    Small();
    assert Pow2(9) == 512;
    assert Pow2(11) == 2048;
  }

  // ----- lengths -------------------------------------------------------------------------------------------------

  lemma LengthsMore(code: seq<int>, base: seq<int>, n: int, c: int)
    requires 0 <= n < 256 && 0 <= c < 29 && LengthsBelow(code, base, n, c + 1) && LengthCoded(n, c, base[c])
    ensures LengthsBelow(code[n := c], base, n + 1, c + 1)
  {
    hide LengthCoded;
  }

  lemma LengthsBase(code: seq<int>, base: seq<int>, n: int, c: int, b: int)
    requires 0 <= c < 29 && LengthsBelow(code, base, n, c)
    ensures LengthsBelow(code, base[c := b], n, c + 1)
  {
    hide LengthCoded;
  }

  lemma OneLength(base: int, c: nat, k: nat)
    requires c < 28 && LBASE[c] == base + 3
    ensures |EXTRA_LBITS| == 29 && |LBASE| == 31
    ensures k < Pow2(EXTRA_LBITS[c]) ==> LengthCoded(base + k, c, base)
    ensures base + Pow2(EXTRA_LBITS[c]) + 3 == if c == 27 then 259 else LBASE[c + 1]
  {
    LengthStep(c);
    Small();
    hide LBASE, LEXT, EXTRA_LBITS;
  }

  lemma LastLength(code: seq<int>, base: seq<int>)
    requires LengthsBelow(code, base, 256, 28)
    ensures LengthsBelow(code[255 := 28], base, 256, 29)
  {
    assert LBASE[28] == 258 && LEXT[28] == 16 && EXTRA_LBITS[28] == 0;
    hide LBASE, LEXT, EXTRA_LBITS;
  }

  lemma NoLengths(code: seq<int>, base: seq<int>)
    requires |code| == 256 && |base| == 29
    ensures LengthsBelow(code, base, 0, 0) && |LBASE| == 31 && LBASE[0] == 3 && |EXTRA_LBITS| == 29
  {
  }

  /** The code of each length; the longest gets one of its own. */
  method MakeLengthCodes(code: array<int>, base: array<int>)
    requires code != base && code.Length == 256 && base.Length == 29
    modifies code, base
    ensures LengthsBelow(code[..], base[..], 256, 29)
  {
    hide *;
    NoLengths(code[..], base[..]);
    var length := 0;
    for c := 0 to 28
      invariant LengthsBelow(code[..], base[..], length, c) && 0 <= length
      invariant length + 3 == if c == 28 then 259 else LBASE[c]
    {
      ghost var b := base[..];
      LengthsBase(code[..], b, length, c, length);
      base[c] := length;
      assert base[..] == b[c := length];
      ghost var first := length;
      var count := Pow2(EXTRA_LBITS[c]);
      OneLength(first, c, 0);
      for n := 0 to count
        invariant length == first + n && base[..] == b[c := first] && LengthsBelow(code[..], base[..], length, c + 1)
      {
        OneLength(first, c, n);
        Within(c, first);
        ghost var was := code[..];
        LengthsMore(was, base[..], length, c);
        code[length] := c;
        assert code[..] == was[length := c];
        length := length + 1;
      }
    }
    ghost var was := code[..];
    LastLength(was, base[..]);
    code[length - 1] := 28;
    assert code[..] == was[255 := 28];
  }

  /** The bases stay where they are, below the next. */
  lemma Within(c: nat, first: int)
    requires c < 28 && LBASE[c] == first + 3
    ensures |EXTRA_LBITS| == 29 && first + Pow2(EXTRA_LBITS[c]) <= 256
  {
    hide Pow2;
    Small();
  }

  // ----- distances -----------------------------------------------------------------------------------------------

  /** The distances that share a place with n get its code. */
  lemma DistancesMore(code: seq<int>, base: seq<int>, n: int, c: int, n': int)
    requires 0 <= n < n' <= 32768 && 0 <= c < 30 && DistancesBelow(code, base, n, c + 1)
    requires if n < 256 then n' == n + 1 && n' <= 256 else n % 128 == 0 && n' == n + 128
    requires forall d {:trigger DistanceCoded(d, c, base[c])} :: n <= d < n' ==> DistanceCoded(d, c, base[c])
    ensures 0 <= Place(n) < 512 && DistancesBelow(code[Place(n) := c], base, n', c + 1)
  {
    hide DistanceCoded;
    var after := code[Place(n) := c];
    forall d {:trigger Place(d)} | 0 <= d < n'
      ensures 0 <= Place(d) < 512 && (d < n ==> Place(d) != Place(n)) && (d >= n ==> Place(d) == Place(n))
    {
      PlacesApart(d, n, n');
    }
  }

  lemma PlacesApart(d: int, n: int, n': int)
    requires 0 <= n < n' <= 32768 && 0 <= d < n'
    requires if n < 256 then n' == n + 1 && n' <= 256 else n % 128 == 0 && n' == n + 128
    ensures 0 <= Place(d) < 512 && (d < n ==> Place(d) != Place(n)) && (d >= n ==> Place(d) == Place(n))
  {
  }

  lemma DistancesBase(code: seq<int>, base: seq<int>, n: int, c: int, b: int)
    requires 0 <= c < 30 && DistancesBelow(code, base, n, c)
    ensures DistancesBelow(code, base[c := b], n, c + 1)
  {
    hide DistanceCoded;
  }

  lemma OneDistance(base: int, c: nat, k: nat)
    requires c < 30 && 0 <= base && DBASE[c] == base + 1
    ensures |EXTRA_DBITS| == 30 && |DBASE| == 32
    ensures k < Pow2(EXTRA_DBITS[c]) ==> DistanceCoded(base + k, c, base)
    ensures base + Pow2(EXTRA_DBITS[c]) + 1 == (if c == 29 then 32769 else DBASE[c + 1])
    ensures c >= 16 ==> EXTRA_DBITS[c] >= 7 && Pow2(EXTRA_DBITS[c]) == 128 * Pow2(EXTRA_DBITS[c] - 7)
  {
    DistanceStep(c);
    Small();
    if c >= 16 { Pow2Sum(7, EXTRA_DBITS[c] - 7); }
    hide DBASE, DEXT, EXTRA_DBITS, Pow2;
  }

  lemma NoDistances(code: seq<int>, base: seq<int>)
    requires |code| == 512 && |base| == 30
    ensures DistancesBelow(code, base, 0, 0) && |DBASE| == 32 && DBASE[0] == 1 && |EXTRA_DBITS| == 30
  {
  }

  lemma HalfWay()
    ensures |DBASE| == 32 && DBASE[16] == 257
  {
  }

  lemma FirstPlace(c: nat, first: int, k: nat)
    requires c < 16 && 0 <= first && DBASE[c] == first + 1 && |EXTRA_DBITS| == 30 && k < Pow2(EXTRA_DBITS[c])
    ensures first + k < 256 && Place(first + k) == first + k && DistanceCoded(first + k, c, first)
  {
    OneDistance(first, c, k);
    FarEnough(c, first);
  }

  lemma FarEnough(c: nat, first: int)
    requires c < 16 && DBASE[c] == first + 1 && |EXTRA_DBITS| == 30
    ensures first + Pow2(EXTRA_DBITS[c]) <= 256
  {
    hide Pow2;
    Small();
  }

  /** All distances at one place of the upper half. */
  lemma UpperPlace(c: nat, half: int, k: nat)
    requires 16 <= c < 30 && 2 <= half && DBASE[c] == 128 * half + 1 && |EXTRA_DBITS| == 30 && 7 <= EXTRA_DBITS[c]
    requires k < Pow2(EXTRA_DBITS[c] - 7)
    ensures half + k < 256 && Place(128 * (half + k)) == 256 + half + k
    ensures forall d {:trigger DistanceCoded(d, c, 128 * half)} ::
      128 * (half + k) <= d < 128 * (half + k) + 128 ==> DistanceCoded(d, c, 128 * half)
  {
    FarEnoughUp(c, half);
    forall d {:trigger DistanceCoded(d, c, 128 * half)} | 128 * (half + k) <= d < 128 * (half + k) + 128
      ensures DistanceCoded(d, c, 128 * half)
    {
      var j: nat := d - 128 * half;
      OneDistance(128 * half, c, j);
      assert 128 * half + j == d && j < Pow2(EXTRA_DBITS[c]);
    }
  }

  lemma FarEnoughUp(c: nat, half: int)
    requires 16 <= c < 30 && DBASE[c] == 128 * half + 1 && |EXTRA_DBITS| == 30 && 7 <= EXTRA_DBITS[c]
    ensures half + Pow2(EXTRA_DBITS[c] - 7) <= 256
  {
    hide Pow2;
    Small();
  }

  /** The code of each distance, one by one up to 256 and from there on by the 128. */
  method MakeDistanceCodes(code: array<int>, base: array<int>)
    requires code != base && code.Length == 512 && base.Length == 30
    modifies code, base
    ensures DistancesBelow(code[..], base[..], 32768, 30)
  {
    hide *;
    NoDistances(code[..], base[..]);
    var dist := 0;
    for c := 0 to 16
      invariant DistancesBelow(code[..], base[..], dist, c) && 0 <= dist && dist + 1 == DBASE[c]
    {
      ghost var b := base[..];
      DistancesBase(code[..], b, dist, c, dist);
      base[c] := dist;
      assert base[..] == b[c := dist];
      ghost var first := dist;
      var count := Pow2(EXTRA_DBITS[c]);
      OneDistance(first, c, 0);
      for n := 0 to count
        invariant dist == first + n && base[..] == b[c := first] && DistancesBelow(code[..], base[..], dist, c + 1)
      {
        FirstPlace(c, first, n);
        ghost var was := code[..];
        OnlyOne(dist, c, first);
        DistancesMore(was, base[..], dist, c, dist + 1);
        code[dist] := c;
        assert code[..] == was[dist := c];
        dist := dist + 1;
      }
    }
    HalfWay();
    dist := dist / 128;
    for c := 16 to 30
      invariant DistancesBelow(code[..], base[..], 128 * dist, c) && 2 <= dist
      invariant 128 * dist + 1 == if c == 30 then 32769 else DBASE[c]
    {
      ghost var b := base[..];
      DistancesBase(code[..], b, 128 * dist, c, dist * 128);
      base[c] := dist * 128;
      ghost var first := dist;
      assert base[..] == b[c := 128 * first];
      OneDistance(128 * first, c, 0);
      var count := Pow2(EXTRA_DBITS[c] - 7);
      for n := 0 to count
        invariant dist == first + n && base[..] == b[c := 128 * first]
          && DistancesBelow(code[..], base[..], 128 * dist, c + 1)
      {
        UpperPlace(c, first, n);
        ghost var was, at := code[..], 128 * dist;
        assert at == 128 * (first + n) && base[..][c] == 128 * first;
        DistancesMore(was, base[..], at, c, at + 128);
        code[256 + dist] := c;
        assert code[..] == was[256 + dist := c];
        dist := dist + 1;
      }
    }
  }

  lemma OnlyOne(dist: int, c: int, first: int)
    requires DistanceCoded(dist, c, first)
    ensures forall d {:trigger DistanceCoded(d, c, first)} :: dist <= d < dist + 1 ==> DistanceCoded(d, c, first)
  {
    hide DistanceCoded;
  }
}
