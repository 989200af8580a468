/**
 The CRC register as it takes a message in bit by bit, and what follows from the field: the register is linear in its
 start, so messages may be taken in pieces, a byte at a time, or in several braids at once.
 */
module CrcState {
  import opened CrcWord
  import opened CrcField

  function Wide(b: bv8): bv32 { b as bv32 }

  /** The lowest n bits of the byte, lowest first: the bit is added to the register, which is then multiplied by x. */
  function Bits(r: bv32, b: bv32, n: nat): bv32
    decreases n
  {
    if n == 0 then r else Bits(MulX(Xor(r, And(b, 1))), Half(b), n - 1)
  }

  /** The register after the message. */
  function State(r: bv32, s: seq<bv8>): bv32
    decreases |s|
  {
    if s == [] then r else Bits(State(r, s[..|s| - 1]), Wide(s[|s| - 1]), 8)
  }

  /** b without its lowest n bits. */
  function Rest(b: bv32, n: nat): bv32
    decreases n
  {
    if n == 0 then b else Rest(Half(b), n - 1)
  }

  // ----- a byte at a time ---------------------------------------------------------------------------------------

  lemma LowestBit(r: bv32, b: bv32)
    ensures MulX(Xor(r, b)) == Xor(MulX(Xor(r, And(b, 1))), Half(b))
  {
    hide *;
    LowestParts(b);
    EvenPart(b);
    MulXEven(Even(b));
    Assoc(r, And(b, 1), Even(b));
    MulXAdds(Xor(r, And(b, 1)), Even(b));
  }

  lemma LowestParts(b: bv32)
    ensures b == Xor(And(b, 1), Even(b))
  {
  }

  /** Whatever is left of b has only been added. */
  lemma {:induction false} BitsAre(r: bv32, b: bv32, n: nat)
    ensures Iter(n, Xor(r, b)) == Xor(Bits(r, b, n), Rest(b, n))
    decreases n
  {
    hide MulX, Xor, And, Half;
    if n > 0 {
      LowestBit(r, b);
      BitsAre(MulX(Xor(r, And(b, 1))), Half(b), n - 1);
      IterSum(n - 1, 1, Xor(r, b));
      assert Iter(1, Xor(r, b)) == MulX(Iter(0, Xor(r, b)));
    }
  }

  lemma ByteRest(b: bv8)
    ensures Rest(Wide(b), 8) == 0
  {
    hide Half;
    RestRaw(Wide(b));
    ByteSmall(b);
  }

  lemma RestRaw(a: bv32)
    ensures Rest(a, 8) == Half(Half(Half(Half(Half(Half(Half(Half(a))))))))
  {
    hide Half;
    RestFour(a);
    RestFour(Half(Half(Half(Half(a)))));
    assert Rest(a, 5) == Rest(Half(a), 4) && Rest(a, 6) == Rest(Half(a), 5);
    assert Rest(a, 7) == Rest(Half(a), 6) && Rest(a, 8) == Rest(Half(a), 7);
    assert Rest(a, 8) == Rest(Half(Half(a)), 6) == Rest(Half(Half(Half(a))), 5);
  }

  lemma RestFour(a: bv32)
    ensures Rest(a, 4) == Half(Half(Half(Half(a))))
  {
    hide Half;
    assert Rest(a, 2) == Half(Half(a)) && Rest(Half(Half(a)), 2) == Half(Half(Half(Half(a))));
    assert Rest(a, 4) == Rest(Half(a), 3) == Rest(Half(Half(a)), 2);
  }

  lemma ByteSmall(b: bv8)
    ensures Half(Half(Half(Half(Half(Half(Half(Half(Wide(b))))))))) == 0
  {
  }

  /** The eight bits of a byte at once. */
  lemma TakesByte(r: bv32, b: bv8)
    ensures Bits(r, Wide(b), 8) == Iter(8, Xor(r, Wide(b)))
  {
    hide *;
    BitsAre(r, Wide(b), 8);
    ByteRest(b);
    Zero(Bits(r, Wide(b), 8));
  }

  lemma StateNext(r: bv32, s: seq<bv8>, b: bv8)
    ensures State(r, s + [b]) == Iter(8, Xor(State(r, s), Wide(b))) && State(r, []) == r
  {
    assert (s + [b])[..|s|] == s;
    hide Iter, Bits, Wide;
    TakesByte(State(r, s), b);
  }

  // ----- pieces of a message --------------------------------------------------------------------------------------

  lemma LastOff(s: seq<bv8>)
    requires s != []
    ensures s == s[..|s| - 1] + [s[|s| - 1]]
  {
  }

  lemma {:induction false} StateAppend(r: bv32, s: seq<bv8>, t: seq<bv8>)
    ensures State(r, s + t) == State(State(r, s), t)
    decreases |t|
  {
    hide State, Bits, Iter, Xor, Wide;
    if t == [] {
      StateNext(State(r, s), [], 0);
      assert s + t == s;
    } else {
      var u, b := t[..|t| - 1], t[|t| - 1];
      LastOff(t);
      assert s + t == (s + u) + [b];
      StateAppend(r, s, u);
      StateNext(r, s + u, b);
      StateNext(State(r, s), u, b);
    }
  }

  /** What is added to the register at the start has been multiplied by x once for each bit at the end. */
  lemma {:induction false} StateAdds(r: bv32, q: bv32, s: seq<bv8>)
    ensures State(Xor(r, q), s) == Xor(State(r, s), Iter(8 * |s|, q))
    decreases |s|
  {
    if s == [] {
      hide Xor;
    } else {
      hide State, Bits, Iter, Xor, Wide;
      var u, b := s[..|s| - 1], s[|s| - 1];
      var p, m := State(r, u), Iter(8 * |u|, q);
      LastOff(s);
      StateAdds(r, q, u);
      StateNext(r, u, b);
      StateNext(Xor(r, q), u, b);
      Assoc(p, m, Wide(b));
      Comm(m, Wide(b));
      Assoc(p, Wide(b), m);
      IterAdds(8, Xor(p, Wide(b)), m);
      IterSum(8, 8 * |u|, q);
    }
  }

  /** The register after both: that after the first, times x to the bits of the second, plus that of the second. */
  lemma StateJoins(r: bv32, s: seq<bv8>, t: seq<bv8>)
    ensures State(r, s + t) == Xor(Iter(8 * |t|, State(r, s)), State(0, t))
  {
    hide *;
    StateAppend(r, s, t);
    Zero(State(r, s));
    StateAdds(0, State(r, s), t);
    Comm(State(0, t), Iter(8 * |t|, State(r, s)));
  }

  // ----- look-up -----------------------------------------------------------------------------------------------

  function Low(a: bv32): bv8 { (a & 0xff) as bv8 }

  function Shift8(a: bv32): bv32 { a >> 8 }

  lemma {:induction false} EvenSteps(a: bv32, n: nat)
    requires Clear(a, n)
    ensures Iter(n, a) == Rest(a, n)
    decreases n
  {
    hide MulX, Half;
    if n > 0 {
      MulXEven(a);
      EvenSteps(Half(a), n - 1);
      IterSum(n - 1, 1, a);
      assert Iter(1, a) == MulX(Iter(0, a));
    }
  }

  /** The lowest n bits are clear. */
  predicate Clear(a: bv32, n: nat)
    decreases n
  {
    n == 0 || (!Odd(a) && Clear(Half(a), n - 1))
  }

  function High(a: bv32): bv32 { a & 0xffff_ff00 }

  lemma HighParts(a: bv32)
    ensures a == Xor(High(a), Wide(Low(a)))
  {
  }

  lemma HighClear(a: bv32)
    ensures Clear(High(a), 8) && Rest(High(a), 8) == Shift8(a)
  {
    ClearRaw(High(a));
    RestRaw(High(a));
    HighRaw(a);
    hide Half, High, Shift8, Odd;
  }

  lemma ClearRaw(a: bv32)
    requires a & 0xff == 0
    ensures Clear(a, 8)
  {
    ClearFour(a);
    ClearFour(a >> 4);
    ClearSum(a, 4, 4);
    RestFour(a);
  }

  lemma ClearFour(a: bv32)
    requires a & 0xf == 0
    ensures Clear(a, 4)
  {
    assert Clear(a >> 2, 2);
  }

  lemma {:induction false} ClearSum(a: bv32, m: nat, n: nat)
    requires Clear(a, m) && Clear(Rest(a, m), n)
    ensures Clear(a, m + n)
    decreases m
  {
    hide Half, Odd;
    if m > 0 { ClearSum(Half(a), m - 1, n); }
  }

  lemma HighRaw(a: bv32)
    ensures High(a) & 0xff == 0
    ensures Half(Half(Half(Half(Half(Half(Half(Half(High(a))))))))) == Shift8(a)
  {
  }

  /** Eight steps are a shift and the entry for the byte shifted out. */
  lemma LookUp(a: bv32)
    ensures Iter(8, a) == Xor(Shift8(a), Iter(8, Wide(Low(a))))
  {
    hide *;
    HighParts(a);
    HighClear(a);
    EvenSteps(High(a), 8);
    IterAdds(8, High(a), Wide(Low(a)));
  }

  /** One step of the byte loop. */
  lemma TableStep(r: bv32, s: seq<bv8>, b: bv8)
    ensures State(r, s + [b]) == Xor(Shift8(State(r, s)), Iter(8, Wide(Low(Xor(State(r, s), Wide(b))))))
  {
    hide *;
    StateNext(r, s, b);
    LookUp(Xor(State(r, s), Wide(b)));
    ShiftByte(State(r, s), b);
  }

  lemma ShiftByte(a: bv32, b: bv8)
    ensures Shift8(Xor(a, Wide(b))) == Shift8(a)
  {
  }
}
