/**
 The bit buffer of zlib's trees: bits gather in sixteen and go out two bytes at a time (dep/zlib/trees.c:180-223).
 What has been sent is a number, its first bit the lowest.
 */
module BitBuffer {
  import opened Powers

  const BUF_SIZE := 16

  /** A value of n bits and a stream behind it. */
  function Put(v: nat, n: nat, rest: nat): nat {
    v + Pow2(n) * rest
  }

  function LittleEndian(s: seq<int>): int {
    if s == [] then 0 else LittleEndian(s[..|s| - 1]) + Pow2(8 * (|s| - 1)) * s[|s| - 1]
  }

  ghost predicate Bytes(s: seq<int>) {
    forall i {:trigger s[i]} :: 0 <= i < |s| ==> 0 <= s[i] < 256
  }

  lemma {:induction false} BytesPositive(s: seq<int>)
    requires Bytes(s)
    ensures 0 <= LittleEndian(s)
    decreases |s|
  {
    if s != [] {
      BytesPositive(s[..|s| - 1]);
      Products(Pow2(8 * (|s| - 1)), s[|s| - 1]);
    }
  }

  lemma Products(a: int, b: int)
    requires 0 <= a && 0 <= b
    ensures 0 <= a * b
  {
  }

  /** Two more bytes, as put_short sends them. */
  lemma TwoMore(s: seq<int>, w: nat)
    requires Bytes(s) && w < 0x1_0000
    ensures Bytes(s + [w % 256] + [w / 256])
    ensures LittleEndian(s + [w % 256] + [w / 256]) == LittleEndian(s) + Pow2(8 * |s|) * w
  {
    hide *;
    var lo, hi := w % 256, w / 256;
    Bytewise(w);
    OneMore(s, lo);
    OneMore(s + [lo], hi);
    Pow2Sum(8 * |s|, 8);
    EightBits();
    Spread(Pow2(8 * |s|), lo, hi, w);
    BytesMore(s, lo, hi);
  }

  lemma Bytewise(w: nat)
    requires w < 0x1_0000
    ensures 0 <= w % 256 < 256 && 0 <= w / 256 < 256 && w == w % 256 + 256 * (w / 256)
  {
  }

  lemma BytesMore(s: seq<int>, lo: int, hi: int)
    requires Bytes(s) && 0 <= lo < 256 && 0 <= hi < 256
    ensures Bytes(s + [lo] + [hi])
  {
  }

  lemma OneMore(s: seq<int>, b: int)
    ensures LittleEndian(s + [b]) == LittleEndian(s) + Pow2(8 * |s|) * b
  {
    assert (s + [b])[..|s|] == s;
  }

  lemma Spread(p: int, lo: int, hi: int, w: int)
    requires w == lo + 256 * hi
    ensures p * lo + (p * 256) * hi == p * w
  {
  }

  lemma EightBits()
    ensures Pow2(8) == 256 && Pow2(16) == 0x1_0000
  {
    assert Pow2(4) == 16;
    Pow2Sum(4, 4);
    Pow2Sum(8, 8);
  }

  /** A value shifted up to bit n of sixteen: what stays in and what runs out at the top. */
  lemma Shifted(v: nat, n: nat)
    requires n <= BUF_SIZE
    ensures v * Pow2(n) % 0x1_0000 == Pow2(n) * (v % Pow2(BUF_SIZE - n))
    ensures v * Pow2(n) == v * Pow2(n) % 0x1_0000 + 0x1_0000 * (v / Pow2(BUF_SIZE - n))
    ensures 0 <= v / Pow2(BUF_SIZE - n)
  {
    EightBits();
    Pow2Sum(n, BUF_SIZE - n);
    ScaledRest(v, Pow2(n), Pow2(BUF_SIZE - n), 0x1_0000);
  }

  lemma ScaledRest(v: nat, p: nat, q: nat, m: nat)
    requires p > 0 && q > 0 && p * q == m
    ensures v * p % m == p * (v % q) && v * p == v * p % m + m * (v / q) && 0 <= v / q
  {
    var a, b := v / q, v % q;
    assert v == q * a + b;
    assert v * p == a * m + p * b by { Regroup(p, q, a, b); }
    Smaller(p, b, q);
    DivIs(v * p, m, a, p * b);
  }

  lemma Regroup(p: int, q: int, a: int, b: int)
    ensures (q * a + b) * p == a * (p * q) + p * b
  {
  }

  lemma Smaller(p: nat, b: nat, q: nat)
    requires p > 0 && b < q
    ensures 0 <= p * b < p * q
  {
  }

  /** What was sent, a value, and what follows. */
  lemma SentOn(v: nat, n: nat, value: nat, length: nat, rest: nat)
    ensures Put(v + Pow2(n) * value, n + length, rest) == Put(v, n, Put(value, length, rest))
  {
    Pow2Sum(n, length);
    hide Pow2;
    OutAndIn(v, Pow2(n), value, Pow2(length), rest);
  }

  lemma OutAndIn(v: int, p: int, value: int, q: int, rest: int)
    ensures (v + p * value) + (p * q) * rest == v + p * (value + q * rest)
  {
  }

  lemma SixteenBits()
    ensures BUF_SIZE == 16
  {
  }

  /** The bits that go in are free. */
  lemma Merged(b: nat, n: nat, value: nat, low: nat)
    requires n <= BUF_SIZE && b < Pow2(n) && low == Pow2(n) * (value % Pow2(BUF_SIZE - n))
    ensures BitOr(b, low) == b + low < 0x1_0000
  {
    EightBits();
    Pow2Sum(n, BUF_SIZE - n);
    BitOrShifted(b, value % Pow2(BUF_SIZE - n), n);
    hide Pow2, BitOr;
    Under(b, Pow2(n), value % Pow2(BUF_SIZE - n), Pow2(BUF_SIZE - n));
  }

  lemma Under(b: nat, p: nat, x: nat, q: nat)
    requires b < p && x < q
    ensures b + p * x < p * q
  {
    assert p * (x + 1) <= p * q;
  }

  lemma RunOver(p: seq<int>, b: nat, n: nat, value: nat, length: nat, low: nat, q: int)
    requires Bytes(p) && n <= BUF_SIZE && b < Pow2(n) && length <= BUF_SIZE && value < Pow2(length)
      && n + length > BUF_SIZE
    requires value * Pow2(n) == low + 0x1_0000 * q && q == value / Pow2(BUF_SIZE - n) && b + low < 0x1_0000
    ensures Bytes(p + [(b + low) % 256] + [(b + low) / 256]) && 0 <= q < Pow2(n + length - BUF_SIZE)
    ensures LittleEndian(p + [(b + low) % 256] + [(b + low) / 256]) + Pow2(8 * (|p| + 2)) * q ==
            (LittleEndian(p) + Pow2(8 * |p|) * b) + Pow2(8 * |p| + n) * value
  {
    hide *;
    SixteenBits();
    TwoMore(p, b + low);
    EightBits();
    Pow2Sum(8 * |p|, 16);
    Pow2Sum(8 * |p|, n);
    Pow2Sum(BUF_SIZE - n, n + length - BUF_SIZE);
    QuotientFits(value, Pow2(BUF_SIZE - n), Pow2(n + length - BUF_SIZE), q);
    Combined(Pow2(8 * |p|), b, low, q, value, Pow2(n));
  }

  lemma QuotientFits(v: nat, p: nat, r: nat, q: int)
    requires p > 0 && v < p * r && q == v / p
    ensures 0 <= q < r
  {
    assert p * q <= v;
    Reaches(p, q, r);
  }

  lemma Reaches(p: int, q: int, r: int)
    requires p > 0
    ensures q >= r ==> p * q >= p * r
  {
  }

  lemma Combined(p: int, b: int, low: int, q: int, v: int, t: int)
    requires v * t == low + 0x1_0000 * q
    ensures p * (b + low) + (p * 0x1_0000) * q == p * b + (p * t) * v
  {
    assert p * (v * t) == (p * t) * v;
    assert p * (low + 0x1_0000 * q) == p * low + (p * 0x1_0000) * q;
    assert p * (b + low) == p * b + p * low;
  }

  lemma FitIn(p: seq<int>, b: nat, n: nat, value: nat, length: nat, low: nat)
    requires n + length <= BUF_SIZE && b < Pow2(n) && value < Pow2(length)
    requires low == Pow2(n) * (value % Pow2(BUF_SIZE - n))
    ensures 0 <= b + low < Pow2(n + length)
    ensures LittleEndian(p) + Pow2(8 * |p|) * (b + low) ==
            (LittleEndian(p) + Pow2(8 * |p|) * b) + Pow2(8 * |p| + n) * value
  {
    hide *;
    PowGrows(length, BUF_SIZE - n);
    Whole(value, Pow2(BUF_SIZE - n));
    Pow2Sum(n, length);
    Pow2Sum(8 * |p|, n);
    Under(b, Pow2(n), value, Pow2(length));
    Raised(Pow2(8 * |p|), b, Pow2(n), value);
  }

  lemma Whole(v: nat, p: nat)
    requires v < p
    ensures v % p == v
  {
  }

  lemma Raised(p: int, b: int, t: int, v: int)
    ensures p * (b + t * v) == p * b + (p * t) * v
  {
  }

  class BitBuffer {
    var pending: seq<int>
    var biBuf: int
    var biValid: int

    ghost predicate Valid()
      reads this
    {
      0 <= biValid <= BUF_SIZE && 0 <= biBuf < Pow2(biValid) && Bytes(pending)
    }

    /** All bits sent, and how many. */
    function Value(): (v: nat)
      requires Valid()
      reads this
    {
      BytesPositive(pending);
      Products(Pow2(8 * |pending|), biBuf);
      LittleEndian(pending) + Pow2(8 * |pending|) * biBuf
    }

    function Size(): (n: nat)
      requires Valid()
      reads this
    {
      8 * |pending| + biValid
    }

    constructor ()
      ensures Valid() && Value() == 0 && Size() == 0
    {
      pending, biBuf, biValid := [], 0, 0;
    }

    /** send_bits: the value goes on top of what is there; a full sixteen bits go out. */
    method SendBits(value: nat, length: nat)
      requires Valid() && length <= BUF_SIZE && value < Pow2(length)
      modifies this
      ensures Valid() && Size() == old(Size()) + length
      ensures Value() == old(Value()) + Pow2(old(Size())) * value
    {
      hide *;
      ValueIs();
      ghost var p, b, n := pending, biBuf, biValid;
      Shifted(value, n);
      SixteenBits();
      var low := value * Pow2(biValid) % 0x1_0000;
      Merged(b, n, value, low);
      if biValid > BUF_SIZE - length {
        biBuf := BitOr(biBuf, low);
        pending := pending + [biBuf % 256] + [biBuf / 256];
        biBuf := value / Pow2(BUF_SIZE - biValid);
        biValid := biValid + length - BUF_SIZE;
        RunOver(p, b, n, value, length, low, biBuf);
      } else {
        biBuf := BitOr(biBuf, low);
        biValid := biValid + length;
        FitIn(p, b, n, value, length, low);
      }
      ValidIs();
      ValueIs();
    }

    lemma ValueIs()
      requires Valid()
      ensures 0 <= biValid <= BUF_SIZE && 0 <= biBuf < Pow2(biValid) && Bytes(pending)
      ensures Value() == LittleEndian(pending) + Pow2(8 * |pending|) * biBuf && Size() == 8 * |pending| + biValid
    {
      hide LittleEndian, Bytes, Pow2;
    }

    lemma ValidIs()
      requires 0 <= biValid <= BUF_SIZE && 0 <= biBuf < Pow2(biValid) && Bytes(pending)
      ensures Valid()
    {
    }
  }
}
