/**
 Multiplication modulo the CRC polynomial, powers of x, and the tables that are made with them
 (dep/zlib/crc32.c:256-276, 500-532, 551-589).
 */
module CrcTables {
  import opened Powers
  import opened CrcWord
  import opened CrcField
  import opened CrcPowers
  import opened CrcState

  // ----- multmodp -----------------------------------------------------------------------------------------------

  /** Bits of a are left, and p lacks the product by their part. */
  predicate Left(a: bv32, b: bv32, m: bv32, c: bv32, p: bv32) {
    OneBit(m) && From(a, m) != 0 && Xor(p, Sum(a, c, m)) == Times(a, b)
  }

  lemma LeftAtFirst(a: bv32, b: bv32)
    requires a != 0
    ensures Left(a, b, 0x8000_0000, b, 0)
  {
    FromTop(a);
    TimesIs(a, b);
    Zero(Sum(a, b, ONE));
    hide From, Sum, Xor, Times, OneBit;
  }

  lemma LeftLast(a: bv32, b: bv32, m: bv32, c: bv32, p: bv32)
    requires Left(a, b, m, c, p) && Bit(a, m) && Under(a, m) == 0
    ensures Xor(p, c) == Times(a, b)
  {
    hide From, Sum, Xor, Times, OneBit, Under, Bit;
    SumIs(a, c, m);
    OneBitNonzero(m);
    HalfBit(m);
    if Half(m) == 0 {
      SumIs(a, MulX(c), 0);
    } else {
      FromSplits(a, m);
      SumNone(a, MulX(c), Half(m));
    }
    Zero(c);
  }

  lemma LeftNext(a: bv32, b: bv32, m: bv32, c: bv32, p: bv32)
    requires Left(a, b, m, c, p) && !(Bit(a, m) && Under(a, m) == 0)
    ensures Half(m) < m && Left(a, b, Half(m), MulX(c), if Bit(a, m) then Xor(p, c) else p)
  {
    hide From, Sum, Xor, Times, OneBit, Under, Bit, MulX, Half;
    var rest := Sum(a, MulX(c), Half(m));
    SumIs(a, c, m);
    OneBitNonzero(m);
    HalfBit(m);
    HalfLess(m);
    FromOne(a);
    if m != 1 { FromSplits(a, m); }
    Zero(From(a, Half(m)));
    Zero(rest);
    Assoc(p, c, rest);
  }

  lemma Raw(a: bv32, b: bv32, m: bv32)
    ensures Bit(a, m) <==> a & m != 0
    ensures Under(a, m) == a & (m - 1) && Half(m) == m >> 1 && Xor(a, b) == a ^ b
    ensures MulX(b) == if b & 1 == 1 then (b >> 1) ^ POLY else b >> 1
  {
  }

  /** The product of polynomials; a must not be zero, or the loop finds no last bit. */
  method MultModP(a: bv32, b: bv32) returns (p: bv32)
    requires a != 0
    ensures p == Times(a, b)
  {
    hide *;
    var m: bv32, c := 0x8000_0000, b;
    p := 0;
    LeftAtFirst(a, b);
    while true
      invariant Left(a, b, m, c, p)
      decreases m
    {
      Raw(a, c, m);
      Raw(p, c, m);
      ghost var q := p;
      if a & m != 0 {
        p := p ^ c;
        if a & (m - 1) == 0 {
          LeftLast(a, b, m, c, q);
          break;
        }
      }
      LeftNext(a, b, m, c, q);
      m := m >> 1;
      c := if c & 1 == 1 then (c >> 1) ^ POLY else c >> 1;
    }
  }

  // ----- x2nmodp ------------------------------------------------------------------------------------------------

  lemma PowerEven(n: nat, k: nat, p: bv32)
    requires n % 2 == 0
    ensures Iter(n * Pow2(k), p) == Iter(n / 2 * Pow2(k + 1), p)
  {
    assert n == 2 * (n / 2);
    assert n * Pow2(k) == n / 2 * Pow2(k + 1);
  }

  lemma PowerOdd(n: nat, k: nat, p: bv32)
    requires n % 2 == 1
    ensures Iter(n * Pow2(k), p) == Iter((n - 1) * Pow2(k), Iter(Pow2(k), p))
  {
    hide Iter;
    assert n * Pow2(k) == (n - 1) * Pow2(k) + Pow2(k);
    IterSum((n - 1) * Pow2(k), Pow2(k), p);
  }

  /** One bit of the count, whatever the place of the table it is taken from. */
  lemma PowerStep(n: nat, k: nat, p: bv32)
    ensures |X2N| == 32
    ensures Iter(n * Pow2(k), p) == Iter(n / 2 * Pow2(k + 1), if n % 2 == 1 then Times(X2N[k % 32], p) else p)
  {
    hide *;
    EntryTimes(k, p);
    if n % 2 == 1 {
      PowerOdd(n, k, p);
      PowerEven(n - 1, k, Iter(Pow2(k), p));
    } else {
      PowerEven(n, k, p);
    }
  }

  lemma PowerNone(k: nat, p: bv32)
    ensures Iter(0 * Pow2(k), p) == p
  {
    assert 0 * Pow2(k) == 0;
  }

  lemma EntryNonzero(k: nat)
    requires k < 32
    ensures |X2N| == 32 && X2N[k] != 0
  {
    hide *;
    EntryPower(k);
    OneIsTop();
    IterNonzero(Pow2(k), ONE);
  }

  /** x to the n times 2^k. */
  method X2nModP(powers: array<bv32>, n: nat, k: nat) returns (p: bv32)
    requires powers[..] == X2N
    ensures p == Iter(n * Pow2(k), ONE) && p != 0
  {
    hide *;
    FirstEntry();
    OneIsTop();
    p := 0x8000_0000;
    var m: nat, j: nat := n, k;
    while m != 0
      invariant Iter(m * Pow2(j), p) == Iter(n * Pow2(k), ONE)
      decreases m
    {
      PowerStep(m, j, p);
      EntryNonzero(j % 32);
      if m % 2 == 1 {
        assert powers[..][j % 32] == powers[j % 32];
        p := MultModP(powers[j % 32], p);
      }
      m := m / 2;
      j := j + 1;
    }
    PowerNone(j, p);
    IterNonzero(n * Pow2(k), ONE);
  }

  // ----- tables -------------------------------------------------------------------------------------------------

  /** The bits from the byte k of a word to the end of the words of all n braids. */
  function Ahead(n: nat, w: nat, k: nat): (d: nat)
    requires k <= w && n > 0
    ensures d == 8 * (n * w - k)
  {
    assert n * w == (n - 1) * w + w && (n - 1) * w >= 0;
    8 * (n * w - k)
  }

  /** The entry for each byte is eight steps of it. */
  ghost predicate ByteTable(t: seq<bv32>) {
    |t| == 256 && forall b: bv8 :: t[b as int] == Iter(8, Wide(b))
  }

  /** The entry for a byte w - k bytes before the end of its word, taken past the n - 1 words of the other braids. */
  ghost predicate BraidTable(t: array2<bv32>, n: nat, w: nat)
    reads t
  {
    n > 0 && t.Length0 == w && t.Length1 == 256 && forall k: nat | k < w :: BraidRow(t, n, w, k, 256)
  }

  ghost predicate BraidRow(t: array2<bv32>, n: nat, w: nat, k: nat, i: bv32)
    requires n > 0 && k < w && t.Length0 == w && t.Length1 == 256
    reads t
  {
    forall b: bv8 | Wide(b) < i :: t[k, b as int] == Iter(Ahead(n, w, k), Wide(b))
  }

  lemma IndexIs(b: bv8, i: bv32)
    requires i < 256
    ensures b as int == i as int <==> Wide(b) == i
  {
  }

  lemma UpToNext(b: bv8, i: bv32)
    requires i < 256 && Wide(b) < i + 1
    ensures Wide(b) < i || Wide(b) == i
  {
    hide Wide;
  }

  lemma IndexBelow(b: bv8)
    ensures Wide(b) < 256
  {
  }

  ghost predicate Filled(t: seq<bv32>, i: bv32) {
    |t| == 256 && forall b: bv8 | Wide(b) < i :: t[b as int] == Iter(8, Wide(b))
  }

  lemma FillOne(t: seq<bv32>, i: bv32)
    requires i < 256 && Filled(t, i)
    ensures i as int < 256 && Filled(t[i as int := Iter(8, i)], i + 1)
  {
    var u, v := t[i as int := Iter(8, i)], Iter(8, i);
    hide Iter, Wide;
    forall b: bv8 | Wide(b) < i + 1 ensures u[b as int] == Iter(8, Wide(b)) {
      UpToNext(b, i);
      FillEntry(t, i, b, v);
    }
  }

  lemma FillEntry(t: seq<bv32>, i: bv32, b: bv8, v: bv32)
    requires i < 256 && |t| == 256
    ensures i as int < 256 && b as int < 256
    ensures t[i as int := v][b as int] == if Wide(b) == i then v else t[b as int]
  {
    IndexIs(b, i);
    hide Wide;
  }

  lemma FilledNone(t: seq<bv32>)
    requires |t| == 256
    ensures Filled(t, 0)
  {
  }

  lemma FilledAll(t: seq<bv32>)
    requires Filled(t, 256)
    ensures ByteTable(t)
  {
    hide Iter, Wide;
    forall b: bv8 ensures t[b as int] == Iter(8, Wide(b)) {
      IndexBelow(b);
    }
  }

  method MakeCrcTable(t: array<bv32>)
    requires t.Length == 256
    modifies t
    ensures ByteTable(t[..])
  {
    hide Iter, Wide, Filled;
    var i: bv32 := 0;
    FilledNone(t[..]);
    while i < 256
      invariant i <= 256
      invariant Filled(t[..], i)
      decreases 256 - i
    {
      var p := i;
      IterIs(0, i);
      for j := 0 to 8
        invariant p == Iter(j, i) && Filled(t[..], i)
      {
        IterIs(j, i);
        Raw(0, p, 0);
        p := if p & 1 == 1 then (p >> 1) ^ POLY else p >> 1;
      }
      FillOne(t[..], i);
      t[i as int] := p;
      i := i + 1;
    }
    FilledAll(t[..]);
  }

  lemma IterIs(n: nat, b: bv32)
    ensures Iter(0, b) == b && Iter(n + 1, b) == MulX(Iter(n, b))
  {
    hide MulX;
  }

  /** Each entry made by squaring the one before it. */
  method MakePowers(t: array<bv32>)
    requires t.Length == 32
    modifies t
    ensures t[..] == X2N
  {
    hide *;
    FirstEntry();
    var p: bv32 := 0x4000_0000;
    t[0] := p;
    for n := 1 to 32
      invariant p == X2N[n - 1] && t[..n] == X2N[..n]
    {
      Squares(n - 1);
      EntryNonzero(n - 1);
      p := MultModP(p, p);
      t[n] := p;
    }
  }

  lemma ByteUp(a: bv32)
    requires a & 0xff == 0
    ensures Iter(8, a) == Shift8(a)
  {
    hide Iter;
    LookUp(a);
    IterZero(8);
  }

  lemma Up24(i: bv32)
    requires i < 256
    ensures Iter(24, i << 24) == i
  {
    var a := i << 24;
    UpRaw(i);
    hide *;
    ByteUp(a);
    ByteUp(Shift8(a));
    ByteUp(Shift8(Shift8(a)));
    IterSum(8, 8, a);
    IterSum(8, 16, a);
  }

  lemma UpRaw(i: bv32)
    requires i < 256
    ensures var a := i << 24; a & 0xff == 0 && Shift8(a) & 0xff == 0 && Shift8(Shift8(a)) & 0xff == 0
                              && Shift8(Shift8(Shift8(a))) == i && (a == 0 <==> i == 0)
  {
  }

  lemma BraidEntry(i: bv32, n: nat, w: nat, k: nat)
    requires i < 256 && n > 0 && k < w
    ensures Times(i << 24, Iter((Ahead(n, w, k) + 24) * Pow2(0), ONE)) == Iter(Ahead(n, w, k), i)
  {
    hide *;
    FirstPower();
    var d := Ahead(n, w, k);
    assert (d + 24) * Pow2(0) == d + 24;
    PowerTimes(d + 24, i << 24);
    IterSum(d, 24, i << 24);
    Up24(i);
  }

  method Braid(t: array2<bv32>, powers: array<bv32>, n: nat, w: nat)
    requires t.Length0 == w && t.Length1 == 256 && n > 0 && powers[..] == X2N
    modifies t
    ensures BraidTable(t, n, w)
  {
    hide Iter, Wide, Times, X2N, Pow2;
    for k := 0 to w
      invariant forall j: nat | j < k :: BraidRow(t, n, w, j, 256)
    {
      BraidEntry(0, n, w, k);
      var p := X2nModP(powers, Ahead(n, w, k) + 24, 0);
      label row:
      BraidRows(t, powers, p, n, w, k);
      forall j: nat | j < k ensures BraidRow(t, n, w, j, 256) {
        assert old@row(BraidRow(t, n, w, j, 256));
        forall b: bv8 | Wide(b) < 256 ensures t[j, b as int] == Iter(Ahead(n, w, j), Wide(b)) {
          assert t[j, b as int] == old@row(t[j, b as int]);
        }
      }
    }
  }

  /** Row k, with the others left as they are. */
  method BraidRows(t: array2<bv32>, powers: array<bv32>, p: bv32, n: nat, w: nat, k: nat)
    requires t.Length0 == w && t.Length1 == 256 && n > 0 && k < w
    requires p == Iter((Ahead(n, w, k) + 24) * Pow2(0), ONE)
    modifies t
    ensures BraidRow(t, n, w, k, 256)
    ensures forall j: nat, b: nat | j < w && j != k && b < 256 :: t[j, b] == old(t[j, b])
  {
    hide Iter, Wide, Times, Pow2;
    t[k, 0] := 0;
    FirstOfRow(t, n, w, k);
    var i: bv32 := 1;
    while i < 256
      invariant 1 <= i <= 256
      invariant BraidRow(t, n, w, k, i)
      invariant forall j: nat, b: nat | j < w && j != k && b < 256 :: t[j, b] == old(t[j, b])
      decreases 256 - i
    {
      UpRaw(i);
      BraidEntry(i, n, w, k);
      var q := MultModP(i << 24, p);
      t[k, i as int] := q;
      forall b: bv8 | Wide(b) < i + 1 ensures t[k, b as int] == Iter(Ahead(n, w, k), Wide(b)) {
        IndexIs(b, i);
        UpToNext(b, i);
      }
      i := i + 1;
    }
  }

  lemma FirstOfRow(t: array2<bv32>, n: nat, w: nat, k: nat)
    requires t.Length0 == w && t.Length1 == 256 && n > 0 && k < w && t[k, 0] == 0
    ensures BraidRow(t, n, w, k, 1)
  {
    hide Iter;
    IterZero(Ahead(n, w, k));
    forall b: bv8 | Wide(b) < 1 ensures t[k, b as int] == Iter(Ahead(n, w, k), Wide(b)) {
      IndexIs(b, 0);
      UpToNext(b, 0);
    }
  }
}
