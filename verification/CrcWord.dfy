/** Words of 32 bits: the operations the CRC code uses on them, and the facts about bits that its algebra rests on. */
module CrcWord {

  function Xor(a: bv32, b: bv32): bv32 { a ^ b }

  function Half(a: bv32): bv32 { a >> 1 }

  predicate Odd(a: bv32) { a & 1 == 1 }

  function And(a: bv32, m: bv32): bv32 { a & m }

  /** Some bit of m is set in a. */
  predicate Bit(a: bv32, m: bv32) { And(a, m) != 0 }

  predicate OneBit(m: bv32) { m != 0 && m & (m - 1) == 0 }

  /** The one bit of m and all below it. */
  function Upto(m: bv32): bv32 { m | (m - 1) }

  function Lower(m: bv32): bv32 { m - 1 }

  /** The bits of a at the one bit of m and below. */
  function From(a: bv32, m: bv32): bv32 { And(a, Upto(m)) }

  /** The bits of a below the one bit of m. */
  function Under(a: bv32, m: bv32): bv32 { And(a, Lower(m)) }

  function Even(a: bv32): bv32 { a & 0xffff_fffe }

  lemma Assoc(a: bv32, b: bv32, c: bv32)
    ensures Xor(Xor(a, b), c) == Xor(a, Xor(b, c))
  {
  }

  lemma Comm(a: bv32, b: bv32)
    ensures Xor(a, b) == Xor(b, a)
  {
  }

  lemma Zero(a: bv32)
    ensures Xor(a, 0) == a && Xor(0, a) == a
  {
  }

  lemma Self(a: bv32)
    ensures Xor(a, a) == 0
  {
  }

  /** Sums of two pairs pair the other way. */
  lemma Pairs(a: bv32, b: bv32, c: bv32, d: bv32)
    ensures Xor(Xor(a, b), Xor(c, d)) == Xor(Xor(a, c), Xor(b, d))
  {
    hide *;
    Assoc(a, b, Xor(c, d));
    Assoc(b, c, d);
    Comm(b, c);
    Assoc(c, b, d);
    Assoc(a, c, Xor(b, d));
  }

  lemma HalfXor(a: bv32, b: bv32)
    ensures Half(Xor(a, b)) == Xor(Half(a), Half(b))
  {
  }

  lemma OddXor(a: bv32, b: bv32)
    ensures Odd(Xor(a, b)) <==> Odd(a) != Odd(b)
  {
  }

  lemma BitXor(a: bv32, b: bv32, m: bv32)
    requires OneBit(m)
    ensures Bit(Xor(a, b), m) <==> Bit(a, m) != Bit(b, m)
  {
    hide *;
    TopOf(a, m);
    TopOf(b, m);
    AndXor(a, b, m);
    BitIs(a, m);
    BitIs(b, m);
    BitIs(Xor(a, b), m);
    Zero(m);
    Zero(0);
    Self(m);
  }

  lemma AndXor(a: bv32, b: bv32, m: bv32)
    ensures And(Xor(a, b), m) == Xor(And(a, m), And(b, m))
  {
  }

  lemma BitIs(a: bv32, m: bv32)
    ensures Bit(a, m) <==> And(a, m) != 0
  {
    hide And;
  }

  lemma HalfBit(m: bv32)
    requires OneBit(m)
    ensures Half(m) == 0 || OneBit(Half(m))
    ensures Half(m) == 0 <==> m == 1
    ensures m != 1 ==> !Odd(m)
  {
  }

  lemma HalfLess(m: bv32)
    requires m != 0
    ensures Half(m) < m
  {
  }

  /** Shifting both leaves the question as it was, unless the lowest bit is asked for. */
  lemma BitHalf(a: bv32, m: bv32)
    requires !Odd(a)
    ensures Bit(Half(a), Half(m)) <==> Bit(a, m)
    ensures Half(m) == 0 ==> !Bit(a, m)
  {
  }

  lemma FromSplits(a: bv32, m: bv32)
    requires OneBit(m) && m != 1
    ensures From(a, m) == Xor(if Bit(a, m) then m else 0, From(a, Half(m)))
    ensures Under(a, m) == From(a, Half(m))
  {
    hide And, Upto, Lower, Half, Xor, OneBit;
    TopOf(a, m);
    LowerMask(m);
    MaskParts(a, m);
  }

  lemma LowerMask(m: bv32)
    requires OneBit(m) && m != 1
    ensures Upto(Half(m)) == Lower(m)
  {
  }

  lemma MaskParts(a: bv32, m: bv32)
    requires OneBit(m)
    ensures And(a, Upto(m)) == Xor(And(a, m), And(a, Lower(m)))
  {
  }

  lemma TopOf(a: bv32, m: bv32)
    requires OneBit(m)
    ensures And(a, m) == 0 || And(a, m) == m
    ensures m != 0
  {
  }

  lemma FromOne(a: bv32)
    ensures From(a, 1) == if Bit(a, 1) then 1 else 0
    ensures Under(a, 1) == 0
    ensures Bit(a, 1) <==> Odd(a)
  {
  }

  lemma FromNone(a: bv32, m: bv32)
    requires OneBit(m) && From(a, m) == 0
    ensures !Bit(a, m) && (Half(m) != 0 ==> From(a, Half(m)) == 0)
  {
  }

  lemma FromTop(a: bv32)
    ensures From(a, 0x8000_0000) == a && OneBit(0x8000_0000) && OneBit(1) && Half(0x8000_0000) == 0x4000_0000
    ensures !Bit(Half(a), 0x8000_0000)
  {
  }

  lemma EvenPart(a: bv32)
    ensures !Odd(Even(a)) && (!Odd(a) ==> Even(a) == a)
    ensures Odd(a) ==> a == Xor(Even(a), 1)
    ensures Half(a) == Half(Even(a))
  {
    EvenBits(a);
    OddBits(a);
  }

  lemma EvenBits(a: bv32)
    ensures (a & 0xffff_fffe) & 1 == 0 && a >> 1 == (a & 0xffff_fffe) >> 1
  {
  }

  lemma OddBits(a: bv32)
    ensures a & 1 != 1 ==> a & 0xffff_fffe == a
    ensures a & 1 == 1 ==> a == (a & 0xffff_fffe) ^ 1
  {
  }

  lemma HalfNonzero(b: bv32)
    requires b != 0 && !Odd(b)
    ensures Half(b) != 0
  {
  }

  lemma HalfOpen(b: bv32, p: bv32)
    requires Bit(p, 0x8000_0000)
    ensures Xor(Half(b), p) != 0
  {
  }
}
