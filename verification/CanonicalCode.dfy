/**
 Canonical Huffman codes as bzip2 assigns and decodes them (dep/bzip2/huffman.c and the symbol reader
 of dep/bzip2/decompress.c).
 */
module CanonicalCode {
  import opened Permutations
  import opened Counting
  import opened Powers

  const MAX_ALPHA_SIZE := 258
  const MAX_CODE_LEN := 23
  const LONGEST := 20

  // ----- code values ------------------------------------------------------------------------------------

  /** The first code of length l: shorter codes in order, each extended by zeros. */
  ghost function First(len: seq<int>, l: nat): (r: nat)
  {
    if l == 0 then 0 else 2 * (First(len, l - 1) + Count(len, l - 1))
  }

  /** The code of symbol s. */
  ghost function Code(len: seq<int>, s: nat): (r: nat)
    requires s < |len| && len[s] >= 0
  {
    First(len, len[s]) + Count(len[..s], len[s])
  }

  /** Every length is a legal one. */
  ghost predicate Lengths(len: seq<int>, minLen: int, maxLen: int) {
    && 0 < |len| <= MAX_ALPHA_SIZE && 1 <= minLen <= maxLen <= LONGEST
    && forall s :: 0 <= s < |len| ==> minLen <= len[s] <= maxLen
  }

  /** The Kraft sum, in units of 2^-top. */
  ghost function Kraft(len: seq<int>, top: nat): (r: nat)
    requires forall s :: 0 <= s < |len| ==> 0 <= len[s] <= top
  {
    if len == [] then 0 else Kraft(len[..|len| - 1], top) + Pow2(top - len[|len| - 1])
  }

  lemma {:induction false} CountNone(len: seq<int>, l: int)
    requires forall s :: 0 <= s < |len| ==> len[s] != l
    ensures Count(len, l) == 0
  {
    if len != [] { CountNone(len[..|len| - 1], l); }
  }

  /** Below the shortest length the first code is 0. */
  lemma {:induction false} FirstBelowMin(len: seq<int>, minLen: nat, l: nat)
    requires l <= minLen && forall s :: 0 <= s < |len| ==> minLen <= len[s]
    ensures First(len, l) == 0
    decreases l
  {
    if l > 0 {
      CountNone(len, l - 1);
      FirstBelowMin(len, minLen, l - 1);
    }
  }

  /** One more symbol adds its share to the codes in use at every length from its own on. */
  lemma {:induction false} UsedByOne(len: seq<int>, c: nat, l: nat)
    requires c <= l
    ensures First(len + [c], l) + Count(len + [c], l) == First(len, l) + Count(len, l) + Pow2(l - c)
    decreases l
  {
    var w := len + [c];
    assert w[..|w| - 1] == len;
    if l == c {
      FirstUnaffected(len, c, l);
    } else {
      UsedByOne(len, c, l - 1);
    }
  }

  lemma {:induction false} FirstUnaffected(len: seq<int>, c: nat, l: nat)
    requires l <= c
    ensures First(len + [c], l) == First(len, l)
    decreases l
  {
    if l > 0 {
      var w := len + [c];
      assert w[..|w| - 1] == len;
      FirstUnaffected(len, c, l - 1);
    }
  }

  lemma {:induction false} FirstOfNone(l: nat)
    ensures First([], l) == 0 && Count([], l) == 0
    decreases l
  {
    if l > 0 { FirstOfNone(l - 1); }
  }

  /** At the top length, the codes in use are the Kraft sum. */
  lemma {:induction false} UsedIsKraft(len: seq<int>, top: nat)
    requires forall s :: 0 <= s < |len| ==> 0 <= len[s] <= top
    ensures First(len, top) + Count(len, top) == Kraft(len, top)
  {
    if len == [] {
      FirstOfNone(top);
    } else {
      var c := len[|len| - 1];
      assert len == len[..|len| - 1] + [c];
      UsedIsKraft(len[..|len| - 1], top);
      UsedByOne(len[..|len| - 1], c, top);
    }
  }

  lemma DoublePow(x: nat, k: nat)
    ensures x * Pow2(k + 1) == 2 * (x * Pow2(k))
  {
    assert x * (2 * Pow2(k)) == 2 * (x * Pow2(k));
  }

  lemma Cancel(u: nat, v: nat, p: nat)
    requires p > 0 && u * p <= v * p
    ensures u <= v
  {
    if u > v {
      ProductPositive(u - v, p);
      Distribute(v, u - v, p);
      assert false;
    }
  }

  lemma ProductPositive(a: int, b: int)
    requires a > 0 && b > 0
    ensures a * b > 0
  {
  }

  lemma Distribute(a: int, b: int, c: int)
    ensures (a + b) * c == a * c + b * c
  {
  }

  /** Codes in use only multiply as the length grows. */
  lemma {:induction false} UsedGrows(len: seq<int>, l: nat, l': nat)
    requires l <= l'
    ensures (First(len, l) + Count(len, l)) * Pow2(l' - l) <= First(len, l') + Count(len, l')
    decreases l' - l
  {
    hide First, Count;
    if l < l' {
      FirstNext(len, l' - 1);
      UsedGrows(len, l, l' - 1);
      DoublePow(First(len, l) + Count(len, l), l' - 1 - l);
    }
  }

  lemma FirstNext(len: seq<int>, l: nat)
    ensures First(len, l + 1) == 2 * (First(len, l) + Count(len, l))
  {
  }

  /** A Kraft sum of at most one leaves room for the codes of every length. */
  lemma CodesFit(len: seq<int>, top: nat, l: nat)
    requires (forall s :: 0 <= s < |len| ==> 0 <= len[s] <= top) && l <= top
    requires Kraft(len, top) <= Pow2(top)
    ensures First(len, l) + Count(len, l) <= Pow2(l)
  {
    hide First, Count, Kraft, Pow2;
    UsedIsKraft(len, top);
    UsedGrows(len, l, top);
    Pow2Sum(l, top - l);
    Cancel(First(len, l) + Count(len, l), Pow2(l), Pow2(top - l));
  }

  lemma CodeRange(len: seq<int>, s: nat)
    requires s < |len| && len[s] >= 0
    ensures First(len, len[s]) <= Code(len, s) < First(len, len[s]) + Count(len, len[s])
  {
    CountBefore(len, s);
  }

  // ----- assigning codes ----------------------------------------------------------------------------------

  ghost predicate AssignedBefore(code: seq<int>, len: seq<int>, n: int, i: int) {
    |len| <= |code| && forall s :: 0 <= s < |len| && 0 <= len[s] && (len[s] < n || (len[s] == n && s < i)) ==>
      code[s] == Code(len, s)
  }

  lemma AssignStep(code: seq<int>, len: seq<int>, n: int, i: int, vec: int)
    requires AssignedBefore(code, len, n, i) && 0 <= i < |len| && 0 <= n && vec == First(len, n) + Count(len[..i], n)
    ensures len[i] == n ==> AssignedBefore(code[i := vec], len, n, i + 1)
    ensures len[i] != n ==> AssignedBefore(code, len, n, i + 1)
    ensures First(len, n) + Count(len[..i + 1], n) == vec + if len[i] == n then 1 else 0
  {
    CountStep(len, i, n);
  }

  lemma AssignNextLength(code: seq<int>, len: seq<int>, n: int, vec: int)
    requires AssignedBefore(code, len, n, |len|) && 0 <= n && vec == First(len, n) + Count(len[..|len|], n)
    ensures AssignedBefore(code, len, n + 1, 0) && 2 * vec == First(len, n + 1) + Count(len[..0], n + 1)
  {
    assert len[..|len|] == len && len[..0] == [];
  }

  method AssignCodes(code: array<int>, length: array<int>, minLen: int, maxLen: int, alphaSize: int)
    requires code != length && 0 < alphaSize <= code.Length && alphaSize <= length.Length
    requires Lengths(length[..alphaSize], minLen, maxLen)
    modifies code
    ensures forall s :: 0 <= s < alphaSize ==> code[s] == Code(length[..alphaSize], s)
  {
    hide First, Count, Code;
    ghost var len := length[..alphaSize];
    FirstBelowMin(len, minLen, minLen);
    var vec, n := 0, minLen;
    NothingYet(len, minLen);
    while n <= maxLen
      invariant minLen <= n <= maxLen + 1 && length[..alphaSize] == len
      invariant vec == First(len, n) + Count(len[..0], n)
      invariant AssignedBefore(code[..], len, n, 0)
    {
      var i := 0;
      while i < alphaSize
        invariant 0 <= i <= alphaSize && length[..alphaSize] == len
        invariant vec == First(len, n) + Count(len[..i], n)
        invariant AssignedBefore(code[..], len, n, i)
      {
        AssignStep(code[..], len, n, i, vec);
        assert length[i] == len[i];
        if length[i] == n {
          code[i] := vec;
          vec := vec + 1;
        }
        i := i + 1;
      }
      AssignNextLength(code[..], len, n, vec);
      vec := vec * 2;
      n := n + 1;
    }
  }

  lemma NothingYet(len: seq<int>, n: int)
    ensures Count(len[..0], n) == 0
  {
    assert len[..0] == [];
  }

  // ----- bits ---------------------------------------------------------------------------------------------

  /** The low n bits of c, most significant first. */
  function BitsOf(c: nat, n: nat): (b: seq<int>)
    ensures |b| == n && forall i :: 0 <= i < n ==> 0 <= b[i] <= 1
    decreases n
  {
    if n == 0 then [] else [Shr(c, n - 1) % 2] + BitsOf(c, n - 1)
  }

  /** acc with more bits shifted in. */
  function ShiftIn(acc: int, b: seq<int>): int
    decreases |b|
  {
    if b == [] then acc else ShiftIn(2 * acc + b[0], b[1..])
  }

  /** Cutting k bits off a code that comes after all shorter ones leaves a number past the codes of that length. */
  lemma {:induction false} PrefixPastUsed(len: seq<int>, l: nat, k: nat, c: nat)
    requires k > 0 && c >= First(len, l + k)
    ensures Shr(c, k) >= First(len, l) + Count(len, l)
    decreases k
  {
    hide First, Count;
    FirstNext(len, l + k - 1);
    ShrShr(c, 1, k - 1);
    assert Shr(c, 1) == c / 2;
    if k > 1 { PrefixPastUsed(len, l, k - 1, c / 2); }
  }

  /** Shifting the low n bits into the rest of the number rebuilds it. */
  lemma {:induction false} ShiftBack(c: nat, n: nat)
    ensures ShiftIn(Shr(c, n), BitsOf(c, n)) == c
    decreases n
  {
    if n > 0 {
      var b := BitsOf(c, n);
      assert b[1..] == BitsOf(c, n - 1);
      ShiftBack(c, n - 1);
    }
  }

  lemma BitsNext(c: nat, n: nat)
    requires n > 0
    ensures BitsOf(c, n) == [Shr(c, n - 1) % 2] + BitsOf(c, n - 1)
  {
  }

  /** The bits of a number without its low k bits, then those k bits. */
  lemma {:induction false} BitsSplit(c: nat, m: nat, k: nat)
    ensures BitsOf(c, m + k) == BitsOf(Shr(c, k), m) + BitsOf(c, k)
    decreases m
  {
    if m > 0 {
      BitsNext(c, m + k);
      BitsNext(Shr(c, k), m);
      ShrShr(c, k, m - 1);
      BitsSplit(c, m - 1, k);
    }
  }

  // ----- decoding tables ------------------------------------------------------------------------------------

  /** What the decoding tables hold: last code of each length, the offset into perm, and the symbols by length. */
  ghost predicate Tables(limit: seq<int>, base: seq<int>, perm: seq<int>, len: seq<int>, minLen: int, maxLen: int) {
    && |limit| == |base| == |perm| == MAX_ALPHA_SIZE && Lengths(len, minLen, maxLen)
    && (forall l :: minLen <= l <= maxLen ==> limit[l] == First(len, l) + Count(len, l) - 1)
    && (forall l :: minLen <= l <= maxLen ==> base[l] == First(len, l) - Below(len, l))
    && (forall s :: 0 <= s < |len| ==> 0 <= Rank(len, s) < |len| && perm[Rank(len, s)] == s)
  }

  ghost predicate PermBefore(perm: seq<int>, len: seq<int>, n: int, i: int) {
    |len| <= |perm| && forall s :: 0 <= s < |len| && (len[s] < n || (len[s] == n && s < i)) ==>
      0 <= Rank(len, s) < |len| && perm[Rank(len, s)] == s
  }

  lemma PermStep(perm: seq<int>, len: seq<int>, n: int, i: int, pp: int)
    requires PermBefore(perm, len, n, i) && 0 <= i < |len| && pp == Below(len, n) + Count(len[..i], n)
    ensures len[i] == n ==> 0 <= pp < |perm| && PermBefore(perm[pp := i], len, n, i + 1)
    ensures len[i] != n ==> PermBefore(perm, len, n, i + 1)
    ensures Below(len, n) + Count(len[..i + 1], n) == pp + if len[i] == n then 1 else 0
  {
    hide Rank;
    CountStep(len, i, n);
    if len[i] == n {
      assert pp == Rank(len, i) by { RankIs(len, i); }
      RankRange(len, i);
      forall s | 0 <= s < |len| && (len[s] < n || (len[s] == n && s < i)) ensures Rank(len, s) < Rank(len, i) {
        RankOrder(len, s, i);
      }
    }
  }

  lemma RankIs(len: seq<int>, i: int)
    requires 0 <= i < |len|
    ensures Rank(len, i) == Below(len, len[i]) + Count(len[..i], len[i])
  {
  }

  lemma PermNextLength(perm: seq<int>, len: seq<int>, n: int, pp: int)
    requires PermBefore(perm, len, n, |len|) && pp == Below(len, n) + Count(len[..|len|], n)
    ensures PermBefore(perm, len, n + 1, 0) && pp == Below(len, n + 1) + Count(len[..0], n + 1)
  {
    assert len[..|len|] == len && len[..0] == [];
    BelowNext(len, n);
  }

  /** The inner loop: appends the symbols of length i. */
  method SortOneLength(perm: array<int>, length: array<int>, i: int, alphaSize: int, pp0: int, ghost len: seq<int>)
    returns (pp: int)
    requires perm != length && 0 < alphaSize <= perm.Length && alphaSize <= length.Length && len == length[..alphaSize]
    requires pp0 == Below(len, i) + Count(len[..0], i) && PermBefore(perm[..], len, i, 0)
    modifies perm
    ensures pp == Below(len, i) + Count(len[..|len|], i) && PermBefore(perm[..], len, i, |len|)
  {
    hide Below, Count, PermBefore, Rank;
    pp := pp0;
    var j := 0;
    while j < alphaSize
      invariant 0 <= j <= alphaSize && length[..alphaSize] == len
      invariant pp == Below(len, i) + Count(len[..j], i)
      invariant PermBefore(perm[..], len, i, j)
    {
      PermStep(perm[..], len, i, j, pp);
      assert length[j] == len[j];
      if length[j] == i {
        perm[pp] := j;
        pp := pp + 1;
      }
      j := j + 1;
    }
  }

  /** The symbols in order of length, and within a length in alphabet order. */
  method SortByLength(perm: array<int>, length: array<int>, minLen: int, maxLen: int, alphaSize: int,
                      ghost len: seq<int>)
    requires perm != length && 0 < alphaSize <= perm.Length && alphaSize <= length.Length
    requires len == length[..alphaSize] && Lengths(len, minLen, maxLen)
    modifies perm
    ensures PermBefore(perm[..], len, maxLen + 1, 0)
  {
    hide *;
    var pp, i := 0, minLen;
    LengthsLegal(len, minLen, maxLen);
    PermStarts(perm[..], len, minLen, maxLen);
    while i <= maxLen
      invariant minLen <= i <= maxLen + 1 && length[..alphaSize] == len
      invariant pp == Below(len, i) + Count(len[..0], i)
      invariant PermBefore(perm[..], len, i, 0)
    {
      pp := SortOneLength(perm, length, i, alphaSize, pp, len);
      PermNextLength(perm[..], len, i, pp);
      i := i + 1;
    }
  }

  lemma {:induction false} BelowNone(len: seq<int>, n: int)
    requires forall s :: 0 <= s < |len| ==> n <= len[s]
    ensures Below(len, n) == 0
  {
    if len != [] { BelowNone(len[..|len| - 1], n); }
  }

  lemma PermStarts(perm: seq<int>, len: seq<int>, minLen: int, maxLen: int)
    requires Lengths(len, minLen, maxLen) && |len| <= |perm|
    ensures PermBefore(perm, len, minLen, 0) && Below(len, minLen) + Count(len[..0], minLen) == 0
  {
    BelowNone(len, minLen);
    assert len[..0] == [];
  }

  /** base[l] becomes the number of shorter codes, for every l. */
  /** base[l] is the number of codes shorter than l. */
  ghost predicate Shorter(base: seq<int>, len: seq<int>) {
    |base| == MAX_ALPHA_SIZE && forall l {:trigger base[l]} :: 0 <= l < MAX_CODE_LEN ==> base[l] == Below(len, l)
  }

  method CountShorter(base: array<int>, length: array<int>, alphaSize: int, ghost len: seq<int>)
    requires base != length && base.Length == MAX_ALPHA_SIZE && 0 < alphaSize <= length.Length
      && len == length[..alphaSize]
    requires forall s :: 0 <= s < |len| ==> 1 <= len[s] <= LONGEST
    modifies base
    ensures Shorter(base[..], len)
  {
    hide *;
    CountMinusOne(len);
    CountEach(base, length, alphaSize, len);
    SumUp(base, len);
  }

  /** The count of codes of each length, one place up. */
  method CountEach(base: array<int>, length: array<int>, alphaSize: int, ghost len: seq<int>)
    requires base != length && base.Length == MAX_ALPHA_SIZE == 258 && MAX_CODE_LEN == 23
      && 0 < alphaSize <= length.Length
      && len == length[..alphaSize]
    requires forall s :: 0 <= s < |len| ==> 1 <= len[s] <= LONGEST
    modifies base
    ensures Counted(base[..], len)
  {
    hide Count, Counted;
    var i := 0;
    while i < MAX_CODE_LEN
      invariant 0 <= i <= MAX_CODE_LEN && forall l :: 0 <= l < i ==> base[l] == 0
    {
      base[i] := 0;
      i := i + 1;
    }
    i := 0;
    NothingCounted(base[..], len);
    while i < alphaSize
      invariant 0 <= i <= alphaSize && length[..alphaSize] == len
      invariant Counted(base[..], len[..i])
    {
      ghost var before := base[..];
      assert length[i] == len[i];
      CountedMore(before, len, i);
      base[length[i] + 1] := base[length[i] + 1] + 1;
      assert base[..] == before[len[i] + 1 := before[len[i] + 1] + 1];
      i := i + 1;
    }
    assert len[..alphaSize] == len;
  }

  /** The counts summed up to those of all shorter codes. */
  method SumUp(base: array<int>, ghost len: seq<int>)
    requires base.Length == MAX_ALPHA_SIZE == 258 && MAX_CODE_LEN == 23 && Counted(base[..], len)
    requires Count(len, -1) == 0 && Below(len, 0) == 0
    modifies base
    ensures Shorter(base[..], len)
  {
    hide Below, Count;
    var i := 1;
    while i < MAX_CODE_LEN
      invariant 1 <= i <= MAX_CODE_LEN
      invariant forall l {:trigger base[l]} :: 0 <= l < i ==> base[l] == Below(len, l)
      invariant forall l {:trigger base[l]} :: i <= l < MAX_CODE_LEN ==> base[l] == Count(len, l - 1)
    {
      BelowNext(len, i - 1);
      base[i] := base[i] + base[i - 1];
      i := i + 1;
    }
  }

  ghost predicate Counted(base: seq<int>, s: seq<int>) {
    |base| == MAX_ALPHA_SIZE && forall l {:trigger base[l]} :: 0 <= l < MAX_CODE_LEN ==> base[l] == Count(s, l - 1)
  }

  lemma NothingCounted(base: seq<int>, len: seq<int>)
    requires |base| == MAX_ALPHA_SIZE && forall l :: 0 <= l < MAX_CODE_LEN ==> base[l] == 0
    ensures Counted(base, len[..0])
  {
  }

  lemma CountedMore(base: seq<int>, len: seq<int>, i: int)
    requires 0 <= i < |len| && Counted(base, len[..i]) && 1 <= len[i] <= LONGEST
    ensures 0 <= len[i] + 1 < |base| && Counted(base[len[i] + 1 := base[len[i] + 1] + 1], len[..i + 1])
  {
    hide Count;
    var after := base[len[i] + 1 := base[len[i] + 1] + 1];
    forall l {:trigger after[l]} | 0 <= l < MAX_CODE_LEN ensures after[l] == Count(len[..i + 1], l - 1) {
      assert base[l] == Count(len[..i], l - 1);
      CountStep(len, i, l - 1);
    }
  }

  lemma CountMinusOne(len: seq<int>)
    requires forall s :: 0 <= s < |len| ==> 1 <= len[s]
    ensures Count(len, -1) == 0 && Below(len, 0) == 0 && MAX_ALPHA_SIZE == 258 && MAX_CODE_LEN == 23
  {
    CountNone(len, -1);
    BelowNone(len, 0);
  }

  /** The decoding tables for one set of lengths. */
  method CreateDecodeTables(limit: array<int>, base: array<int>, perm: array<int>, length: array<int>, minLen: int,
                            maxLen: int, alphaSize: int)
    requires limit != base && limit != perm && limit != length && base != perm && base != length && perm != length
    requires limit.Length == base.Length == perm.Length == MAX_ALPHA_SIZE && 0 < alphaSize <= length.Length
    requires Lengths(length[..alphaSize], minLen, maxLen)
    modifies limit, base, perm
    ensures Tables(limit[..], base[..], perm[..], length[..alphaSize], minLen, maxLen)
    ensures LimitsBefore(limit[..], length[..alphaSize], minLen, maxLen, maxLen + 1)
  {
    ghost var len := length[..alphaSize];
    hide First, Count, Below, Rank, PermBefore, Tables, Lengths, LimitsBefore, Adjusted, Shorter;
    SortByLength(perm, length, minLen, maxLen, alphaSize, len);
    LengthsLegal(len, minLen, maxLen);
    CountShorter(base, length, alphaSize, len);
    FillLimits(limit, base, minLen, maxLen, len);
    AdjustBase(limit, base, minLen, maxLen, len);
    assert length[..alphaSize] == len;
    TablesFilled(limit[..], base[..], perm[..], len, minLen, maxLen);
  }

  lemma LengthsLegal(len: seq<int>, minLen: int, maxLen: int)
    requires Lengths(len, minLen, maxLen)
    ensures 1 <= minLen <= maxLen <= LONGEST && 0 < |len| <= MAX_ALPHA_SIZE
    ensures forall s :: 0 <= s < |len| ==> 1 <= len[s] <= LONGEST
  {
  }

  /** base is adjusted for the lengths below i, and still counts the shorter codes from there on. */
  ghost predicate Adjusted(base: seq<int>, len: seq<int>, minLen: int, i: int) {
    && |base| == MAX_ALPHA_SIZE && 0 <= minLen <= i
    && (forall l {:trigger base[l]} :: minLen <= l < i && l < MAX_CODE_LEN ==> base[l] == First(len, l) - Below(len, l))
    && (forall l {:trigger base[l]} :: i <= l < MAX_CODE_LEN ==> base[l] == Below(len, l))
  }

  lemma TablesFilled(limit: seq<int>, base: seq<int>, perm: seq<int>, len: seq<int>, minLen: int, maxLen: int)
    requires |limit| == |base| == |perm| == MAX_ALPHA_SIZE && Lengths(len, minLen, maxLen)
    requires LimitsBefore(limit, len, minLen, maxLen, maxLen + 1)
    requires Adjusted(base, len, minLen, maxLen + 1)
    requires PermBefore(perm, len, maxLen + 1, 0)
    ensures Tables(limit, base, perm, len, minLen, maxLen)
  {
    hide First, Count, Below, Rank;
  }

  method ZeroLimits(limit: array<int>)
    requires limit.Length == MAX_ALPHA_SIZE
    modifies limit
    ensures forall l :: 0 <= l < MAX_CODE_LEN ==> limit[l] == 0
  {
    var i := 0;
    while i < MAX_CODE_LEN
      invariant 0 <= i <= MAX_CODE_LEN && forall l :: 0 <= l < i ==> limit[l] == 0
    {
      limit[i] := 0;
      i := i + 1;
    }
  }

  ghost predicate LimitsBefore(limit: seq<int>, len: seq<int>, minLen: int, maxLen: int, i: int) {
    && |limit| == MAX_ALPHA_SIZE && 1 <= minLen <= maxLen <= LONGEST
    && (forall l :: minLen <= l < i && l <= maxLen ==> limit[l] == First(len, l) + Count(len, l) - 1)
    && (forall l :: maxLen < l < MAX_CODE_LEN ==> limit[l] == 0)
  }

  lemma LimitStep(limit: seq<int>, base: seq<int>, len: seq<int>, minLen: int, maxLen: int, i: int, vec: int)
    requires LimitsBefore(limit, len, minLen, maxLen, i) && minLen <= i <= maxLen && vec == First(len, i)
    requires Shorter(base, len)
    ensures LimitsBefore(limit[i := vec + (base[i + 1] - base[i]) - 1], len, minLen, maxLen, i + 1)
    ensures 2 * (vec + (base[i + 1] - base[i])) == First(len, i + 1)
  {
    hide First, Count, Below;
    BelowNext(len, i);
    FirstNext(len, i);
  }

  /** The last code of each length. */
  method FillLimits(limit: array<int>, base: array<int>, minLen: int, maxLen: int, ghost len: seq<int>)
    requires limit != base && limit.Length == base.Length == MAX_ALPHA_SIZE && Lengths(len, minLen, maxLen)
    requires Shorter(base[..], len)
    modifies limit
    ensures LimitsBefore(limit[..], len, minLen, maxLen, maxLen + 1)
  {
    FirstBelowMin(len, minLen, minLen);
    LengthsLegal(len, minLen, maxLen);
    ZeroLimits(limit);
    hide First, Count, Below, Lengths, LimitsBefore, Shorter;
    LimitsStart(limit[..], len, minLen, maxLen);
    var vec, i := 0, minLen;
    while i <= maxLen
      invariant minLen <= i <= maxLen + 1 && vec == First(len, i)
      invariant LimitsBefore(limit[..], len, minLen, maxLen, i)
    {
      LimitStep(limit[..], base[..], len, minLen, maxLen, i, vec);
      vec := vec + (base[i + 1] - base[i]);
      limit[i] := vec - 1;
      vec := vec * 2;
      i := i + 1;
    }
  }

  lemma LimitsStart(limit: seq<int>, len: seq<int>, minLen: int, maxLen: int)
    requires |limit| == MAX_ALPHA_SIZE && 1 <= minLen <= maxLen <= LONGEST && forall l :: 0 <= l < MAX_CODE_LEN ==>
      limit[l] == 0
    ensures LimitsBefore(limit, len, minLen, maxLen, minLen)
  {
  }

  lemma AdjustStep(limit: seq<int>, base: seq<int>, len: seq<int>, minLen: int, maxLen: int, i: int, low: int)
    requires LimitsBefore(limit, len, minLen, maxLen, maxLen + 1) && Adjusted(base, len, minLen, i)
    requires 1 <= minLen < i <= maxLen <= LONGEST && low == (limit[i - 1] + 1) * 2 - base[i]
    ensures Adjusted(base[i := low], len, minLen, i + 1)
  {
    hide First, Count, Below;
    FirstNext(len, i - 1);
    assert limit[i - 1] == First(len, i - 1) + Count(len, i - 1) - 1;
  }

  /** From the number of shorter codes to the offset between a code and its place in perm. */
  method AdjustBase(limit: array<int>, base: array<int>, minLen: int, maxLen: int, ghost len: seq<int>)
    requires limit != base && limit.Length == base.Length == MAX_ALPHA_SIZE && Lengths(len, minLen, maxLen)
    requires Shorter(base[..], len)
    requires LimitsBefore(limit[..], len, minLen, maxLen, maxLen + 1)
    modifies base
    ensures Adjusted(base[..], len, minLen, maxLen + 1)
  {
    AdjustStarts(base[..], len, minLen, maxLen);
    LengthsLegal(len, minLen, maxLen);
    hide *;
    var i := minLen + 1;
    while i <= maxLen
      invariant minLen + 1 <= i <= maxLen + 1
      invariant Adjusted(base[..], len, minLen, i)
    {
      ghost var before := base[..];
      var low := (limit[i - 1] + 1) * 2 - base[i];
      AdjustStep(limit[..], before, len, minLen, maxLen, i, low);
      base[i] := low;
      assert base[..] == before[i := low];
      i := i + 1;
    }
  }

  lemma AdjustStarts(base: seq<int>, len: seq<int>, minLen: int, maxLen: int)
    requires Shorter(base, len) && Lengths(len, minLen, maxLen)
    ensures Adjusted(base, len, minLen, minLen + 1)
  {
    FirstBelowMin(len, minLen, minLen);
    BelowNone(len, minLen);
    hide First, Count, Below, Lengths;
  }
}
