/**
 Polynomials over the two-element field modulo the CRC polynomial, as zlib holds them: a word of 32 bits with the
 lowest power in the highest bit (dep/zlib/crc32.c:256-276).
 */
module CrcField {
  import opened CrcWord

  const POLY: bv32 := 0xedb88320
  const ONE: bv32 := 0x8000_0000

  /** Times x: a right shift, and the reduction if a power of 32 comes out. */
  function MulX(b: bv32): bv32 {
    if Odd(b) then Xor(Half(b), POLY) else Half(b)
  }

  /** Times x to the n. */
  function Iter(n: nat, b: bv32): bv32 {
    if n == 0 then b else MulX(Iter(n - 1, b))
  }

  /** The sum of b, b x, b x^2 and so on for the bits of a from bit m downwards. */
  function Sum(a: bv32, b: bv32, m: bv32): bv32
    decreases m
  {
    if m == 0 then 0
    else
      HalfLess(m);
      Xor(if Bit(a, m) then b else 0, Sum(a, MulX(b), Half(m)))
  }

  /** The product of two polynomials. */
  function Times(a: bv32, b: bv32): bv32 {
    Sum(a, b, ONE)
  }

  // ----- linearity ------------------------------------------------------------------------------------------

  lemma MulXAdds(a: bv32, b: bv32)
    ensures MulX(Xor(a, b)) == Xor(MulX(a), MulX(b))
  {
    hide Xor, Half, Odd;
    HalfXor(a, b);
    OddXor(a, b);
    var h, k := Half(a), Half(b);
    if Odd(a) && Odd(b) {
      Pairs(h, POLY, k, POLY);
      Self(POLY);
      Zero(Xor(h, k));
    } else if Odd(a) {
      Assoc(h, POLY, k);
      Comm(POLY, k);
      Assoc(h, k, POLY);
    } else if Odd(b) {
      Assoc(h, k, POLY);
    }
  }

  lemma MulXNothing()
    ensures MulX(0) == 0
  {
  }

  lemma {:induction false} IterAdds(n: nat, a: bv32, b: bv32)
    ensures Iter(n, Xor(a, b)) == Xor(Iter(n, a), Iter(n, b))
    decreases n
  {
    hide MulX, Xor;
    if n > 0 {
      IterAdds(n - 1, a, b);
      MulXAdds(Iter(n - 1, a), Iter(n - 1, b));
    }
  }

  lemma {:induction false} IterSum(m: nat, n: nat, b: bv32)
    ensures Iter(m + n, b) == Iter(m, Iter(n, b))
    decreases m
  {
    hide MulX;
    if m > 0 { IterSum(m - 1, n, b); }
  }

  lemma {:induction false} IterZero(n: nat)
    ensures Iter(n, 0) == 0
    decreases n
  {
    hide MulX;
    MulXNothing();
    if n > 0 { IterZero(n - 1); }
  }

  lemma MulXNonzero(b: bv32)
    requires b != 0
    ensures MulX(b) != 0
  {
    assert Bit(POLY, ONE);
    hide Xor, Half, Odd, Bit;
    if Odd(b) { HalfOpen(b, POLY); } else { HalfNonzero(b); }
  }

  /** A power of x is never zero. */
  lemma {:induction false} IterNonzero(n: nat, b: bv32)
    requires b != 0
    ensures Iter(n, b) != 0
    decreases n
  {
    hide MulX;
    if n > 0 {
      IterNonzero(n - 1, b);
      MulXNonzero(Iter(n - 1, b));
    }
  }

  lemma SumIs(a: bv32, b: bv32, m: bv32)
    ensures Sum(a, b, 0) == 0
    ensures m != 0 ==> Sum(a, b, m) == Xor(if Bit(a, m) then b else 0, Sum(a, MulX(b), Half(m)))
  {
    hide Xor, Half, Bit, MulX;
  }

  lemma PickAdds(p: bool, q: bool, b: bv32, c: bv32)
    ensures (if p then Xor(b, c) else 0) == Xor(if p then b else 0, if p then c else 0)
    ensures (if p != q then b else 0) == Xor(if p then b else 0, if q then b else 0)
  {
    hide Xor;
    Zero(0);
    Zero(b);
    Self(b);
  }

  lemma {:induction false} SumRight(a: bv32, b: bv32, c: bv32, m: bv32)
    ensures Sum(a, Xor(b, c), m) == Xor(Sum(a, b, m), Sum(a, c, m))
    decreases m
  {
    hide *;
    SumIs(a, b, m);
    SumIs(a, c, m);
    SumIs(a, Xor(b, c), m);
    if m == 0 {
      Zero(0);
    } else {
      HalfLess(m);
      MulXAdds(b, c);
      PickAdds(Bit(a, m), false, b, c);
      SumRight(a, MulX(b), MulX(c), Half(m));
      Pairs(if Bit(a, m) then b else 0, if Bit(a, m) then c else 0, Sum(a, MulX(b), Half(m)), Sum(a, MulX(c), Half(m)));
    }
  }

  lemma {:induction false} SumLeft(a: bv32, c: bv32, b: bv32, m: bv32)
    requires m == 0 || OneBit(m)
    ensures Sum(Xor(a, c), b, m) == Xor(Sum(a, b, m), Sum(c, b, m))
    decreases m
  {
    hide *;
    SumIs(a, b, m);
    SumIs(c, b, m);
    SumIs(Xor(a, c), b, m);
    if m == 0 {
      Zero(0);
    } else {
      HalfLess(m);
      HalfBit(m);
      BitXor(a, c, m);
      PickAdds(Bit(a, m), Bit(c, m), b, b);
      SumLeft(a, c, MulX(b), Half(m));
      Pairs(if Bit(a, m) then b else 0, if Bit(c, m) then b else 0, Sum(a, MulX(b), Half(m)), Sum(c, MulX(b), Half(m)));
    }
  }

  lemma {:induction false} SumMulX(a: bv32, b: bv32, m: bv32)
    ensures Sum(a, MulX(b), m) == MulX(Sum(a, b, m))
    decreases m
  {
    hide *;
    MulXNothing();
    SumIs(a, b, m);
    SumIs(a, MulX(b), m);
    if m != 0 {
      HalfLess(m);
      SumMulX(a, MulX(b), Half(m));
      MulXAdds(if Bit(a, m) then b else 0, Sum(a, MulX(b), Half(m)));
    }
  }

  lemma {:induction false} SumNone(a: bv32, b: bv32, m: bv32)
    requires m == 0 || (OneBit(m) && From(a, m) == 0)
    ensures Sum(a, b, m) == 0
    decreases m
  {
    hide *;
    SumIs(a, b, m);
    if m != 0 {
      HalfLess(m);
      HalfBit(m);
      FromNone(a, m);
      SumNone(a, MulX(b), Half(m));
      Zero(0);
    }
  }

  /** Shifting the factor and the mask together changes nothing when the factor is even. */
  lemma {:induction false} SumShift(a: bv32, b: bv32, m: bv32)
    requires !Odd(a)
    ensures Sum(Half(a), b, Half(m)) == Sum(a, b, m)
    decreases m
  {
    hide *;
    SumIs(a, b, m);
    SumIs(Half(a), b, Half(m));
    HalfOfNothing();
    if m != 0 {
      HalfLess(m);
      BitHalf(a, m);
      SumIs(a, MulX(b), Half(m));
      if Half(m) == 0 { Zero(0); } else { SumShift(a, MulX(b), Half(m)); }
    }
  }

  lemma HalfOfNothing()
    ensures Half(0) == 0
  {
  }

  lemma {:induction false} SumSelf(a: bv32, m: bv32)
    requires OneBit(m)
    ensures Sum(a, m, m) == From(a, m)
    decreases m
  {
    hide *;
    SumIs(a, m, m);
    HalfBit(m);
    OneBitNonzero(m);
    if m == 1 {
      SumIs(a, MulX(m), Half(m));
      FromOne(a);
      Zero(0);
      Zero(1);
    } else {
      HalfLess(m);
      MulXEven(m);
      SumSelf(a, Half(m));
      FromSplits(a, m);
    }
  }

  lemma OneBitNonzero(m: bv32)
    requires OneBit(m)
    ensures m != 0
  {
  }

  lemma MulXEven(m: bv32)
    requires !Odd(m)
    ensures MulX(m) == Half(m)
  {
  }

  // ----- products with powers of x ----------------------------------------------------------------------------

  lemma TimesIs(a: bv32, b: bv32)
    ensures Times(a, b) == Sum(a, b, ONE) && ONE == 0x8000_0000
  {
    hide Sum;
  }

  lemma TimesX(a: bv32, b: bv32)
    ensures Times(a, MulX(b)) == MulX(Times(a, b))
  {
    hide Sum, MulX;
    SumMulX(a, b, ONE);
  }

  lemma TimesAdds(a: bv32, b: bv32, c: bv32)
    ensures Times(a, Xor(b, c)) == Xor(Times(a, b), Times(a, c)) && Times(Xor(a, b), c) == Xor(Times(a, c), Times(b, c))
  {
    FromTop(a);
    hide Sum, Xor, OneBit;
    SumRight(a, b, c, ONE);
    SumLeft(a, b, c, ONE);
  }

  lemma TimesNothing(a: bv32)
    ensures Times(a, 0) == 0
  {
    hide *;
    TimesAdds(a, 0, 0);
    Zero(0);
    Self(Times(a, 0));
  }

  lemma TimesOne(a: bv32)
    ensures Times(a, ONE) == a && Times(ONE, a) == a
  {
    hide *;
    TimesIs(a, ONE);
    TimesIs(ONE, a);
    FromTop(a);
    SumSelf(a, ONE);
    SumIs(ONE, a, ONE);
    OneIsTop();
    SumNone(ONE, MulX(a), Half(ONE));
    Zero(a);
  }

  lemma OneIsTop()
    ensures ONE == 0x8000_0000 && Bit(ONE, ONE) && From(ONE, Half(ONE)) == 0 && OneBit(Half(ONE)) && ONE != 0
  {
  }

  /** The two maps agree on a sum if they agree on its first term. */
  lemma {:induction false} PolyOn(b: bv32, c: bv32, m: bv32)
    requires Times(POLY, c) == MulX(Times(1, c))
    ensures Times(POLY, Sum(b, c, m)) == MulX(Times(1, Sum(b, c, m)))
    decreases m
  {
    hide *;
    MulXNothing();
    TimesNothing(POLY);
    TimesNothing(1);
    SumIs(b, c, m);
    if m != 0 {
      HalfLess(m);
      TimesX(POLY, c);
      TimesX(1, c);
      PolyOn(b, MulX(c), Half(m));
      PolyAdds(if Bit(b, m) then c else 0, Sum(b, MulX(c), Half(m)));
    }
  }

  lemma PolyAdds(b: bv32, c: bv32)
    requires Times(POLY, b) == MulX(Times(1, b)) && Times(POLY, c) == MulX(Times(1, c))
    ensures Times(POLY, Xor(b, c)) == MulX(Times(1, Xor(b, c)))
  {
    hide *;
    TimesAdds(POLY, b, c);
    TimesAdds(1, b, c);
    MulXAdds(Times(1, b), Times(1, c));
  }

  /** The polynomial acts as x times the highest power: x to the 32. */
  lemma PolyActs(b: bv32)
    ensures Times(POLY, b) == MulX(Times(1, b))
  {
    hide *;
    LastPower();
    TimesOne(POLY);
    TimesOne(1);
    PolyOn(b, ONE, ONE);
    TimesIs(b, ONE);
    TimesOne(b);
  }

  lemma LastPower()
    ensures MulX(1) == POLY
  {
  }

  lemma EvenTimes(e: bv32, b: bv32)
    requires !Odd(e)
    ensures MulX(e) == Half(e) && Times(Half(e), b) == MulX(Times(e, b))
  {
    hide *;
    MulXEven(e);
    TimesX(e, b);
    TimesIs(e, MulX(b));
    TimesIs(Half(e), b);
    SumShift(e, MulX(b), ONE);
    OneIsTop();
    FromTop(e);
    SumIs(Half(e), b, ONE);
    Zero(Sum(Half(e), MulX(b), Half(ONE)));
  }

  /** x times a factor is x times the product. */
  lemma TimesMulX(a: bv32, b: bv32)
    ensures Times(MulX(a), b) == MulX(Times(a, b))
  {
    hide *;
    var e := Even(a);
    EvenPart(a);
    EvenTimes(e, b);
    MulXOdd(a);
    if Odd(a) {
      TimesAdds(Half(e), POLY, b);
      TimesAdds(e, 1, b);
      PolyActs(b);
      MulXAdds(Times(e, b), Times(1, b));
    }
  }

  lemma MulXOdd(a: bv32)
    ensures Odd(a) ==> MulX(a) == Xor(Half(a), POLY)
  {
    hide Xor, Half;
  }

  /** Multiplying either factor by x to the n multiplies the product. */
  lemma {:induction false} TimesIter(n: nat, a: bv32, b: bv32)
    ensures Times(Iter(n, a), b) == Iter(n, Times(a, b)) && Times(a, Iter(n, b)) == Iter(n, Times(a, b))
    decreases n
  {
    hide Times, MulX;
    if n > 0 {
      TimesIter(n - 1, a, b);
      TimesMulX(Iter(n - 1, a), b);
      TimesX(a, Iter(n - 1, b));
    }
  }

  /** The product with a power of x. */
  lemma PowerTimes(n: nat, b: bv32)
    ensures Times(Iter(n, ONE), b) == Iter(n, b) && Times(b, Iter(n, ONE)) == Iter(n, b)
  {
    hide *;
    TimesIter(n, ONE, b);
    TimesIter(n, b, ONE);
    TimesOne(b);
  }
}
