/**
 The rolling hash of three bytes that deflate keeps (dep/zlib/deflate.c:150-156, 304-307): the key forgets
 a byte after three steps, and two strings with the same key and the same first two bytes have the same third.
 */
module HashKey {
  import opened Powers

  /** a shifted left by n bits. */
  function Shl(a: nat, n: nat): nat {
    if n == 0 then a else 2 * Shl(a, n - 1)
  }

  /** The low k bits of a, which is a masked by 2^k - 1. */
  function Low(a: nat, k: nat): (r: nat)
    ensures r < Pow2(k)
  {
    if k == 0 then 0 else a % 2 + 2 * Low(a / 2, k - 1)
  }

  /** Bitwise exclusive or. */
  function Xor(a: nat, b: nat): nat
    decreases a + b
  {
    if a == 0 && b == 0 then 0 else (a + b) % 2 + 2 * Xor(a / 2, b / 2)
  }

  /** The key after one more byte. */
  function Update(h: nat, c: nat, shift: nat, bits: nat): (r: nat)
    ensures r < Pow2(bits)
  {
    Low(Xor(Shl(h, shift), c), bits)
  }

  /** The key of three bytes. */
  function Key(a: nat, b: nat, c: nat, shift: nat, bits: nat): (r: nat)
    ensures r < Pow2(bits)
  {
    Update(Update(Update(0, a, shift, bits), b, shift, bits), c, shift, bits)
  }

  lemma {:induction false} XorZero(b: nat)
    ensures Xor(0, b) == b
    decreases b
  {
    if b > 0 { XorZero(b / 2); }
  }

  lemma Halves(bit: nat, rest: nat)
    requires bit < 2
    ensures (bit + 2 * rest) % 2 == bit && (bit + 2 * rest) / 2 == rest
  {
  }

  lemma XorIs(a: nat, b: nat)
    ensures Xor(a, b) == (a + b) % 2 + 2 * Xor(a / 2, b / 2)
  {
  }

  lemma XorHalves(a: nat, b: nat)
    ensures Xor(a, b) % 2 == (a + b) % 2 && Xor(a, b) / 2 == Xor(a / 2, b / 2)
  {
    hide *;
    var bit, rest := (a + b) % 2, Xor(a / 2, b / 2);
    XorIs(a, b);
    Halves(bit, rest);
  }

  lemma LowHalves(a: nat, k: nat)
    requires k > 0
    ensures Low(a, k) % 2 == a % 2 && Low(a, k) / 2 == Low(a / 2, k - 1)
  {
    Halves(a % 2, Low(a / 2, k - 1));
  }

  lemma ParitySum(x: nat, y: nat, a: nat, b: nat)
    requires x % 2 == a % 2 && y % 2 == b % 2
    ensures (x + y) % 2 == (a + b) % 2
  {
  }

  lemma SameHalves(x: nat, y: nat)
    requires x % 2 == y % 2 && x / 2 == y / 2
    ensures x == y
  {
  }

  lemma {:induction false} XorCancel(a: nat, b: nat, c: nat)
    requires Xor(a, b) == Xor(a, c)
    ensures b == c
    decreases a + b + c
  {
    hide Xor;
    if a + b + c > 0 {
      XorHalves(a, b);
      XorHalves(a, c);
      ParityCancel(a, b, c);
      XorCancel(a / 2, b / 2, c / 2);
      SameHalves(b, c);
    }
  }

  lemma ParityCancel(a: nat, b: nat, c: nat)
    requires (a + b) % 2 == (a + c) % 2
    ensures b % 2 == c % 2
  {
  }

  lemma {:induction false} LowXor(a: nat, b: nat, k: nat)
    ensures Low(Xor(a, b), k) == Xor(Low(a, k), Low(b, k))
    decreases k
  {
    if k == 0 { assert Xor(0, 0) == 0; }
    hide Xor, Low;
    if k > 0 {
      LowXor(a / 2, b / 2, k - 1);
      XorHalves(a, b);
      XorHalves(Low(a, k), Low(b, k));
      LowHalves(a, k);
      LowHalves(b, k);
      LowHalves(Xor(a, b), k);
      ParitySum(Low(a, k), Low(b, k), a, b);
      SameHalves(Low(Xor(a, b), k), Xor(Low(a, k), Low(b, k)));
    }
  }

  lemma {:induction false} LowSmall(c: nat, k: nat)
    requires c < Pow2(k)
    ensures Low(c, k) == c
    decreases k
  {
    if k > 0 { LowSmall(c / 2, k - 1); }
  }

  lemma XorDouble(x: nat, y: nat)
    ensures Xor(2 * x, 2 * y) == 2 * Xor(x, y)
  {
    hide Xor;
    XorIs(2 * x, 2 * y);
    assert 2 * x / 2 == x && 2 * y / 2 == y && (2 * x + 2 * y) % 2 == 0;
  }

  lemma {:induction false} ShlXor(a: nat, b: nat, n: nat)
    ensures Shl(Xor(a, b), n) == Xor(Shl(a, n), Shl(b, n))
    decreases n
  {
    hide Xor;
    if n > 0 {
      ShlXor(a, b, n - 1);
      XorDouble(Shl(a, n - 1), Shl(b, n - 1));
    }
  }

  lemma {:induction false} ShlShl(a: nat, m: nat, n: nat)
    ensures Shl(Shl(a, m), n) == Shl(a, m + n)
    decreases n
  {
    if n > 0 { ShlShl(a, m, n - 1); }
  }

  lemma LowDouble(a: nat, k: nat)
    requires k > 0
    ensures Low(2 * a, k) == 2 * Low(a, k - 1)
  {
    assert 2 * a / 2 == a;
  }

  lemma {:induction false} LowShort(a: nat, k: nat, j: nat)
    requires j <= k
    ensures Low(Low(a, k), j) == Low(a, j)
    decreases j
  {
    if j > 0 {
      var x := Low(a, k);
      assert x / 2 == Low(a / 2, k - 1) && x % 2 == a % 2;
      LowShort(a / 2, k - 1, j - 1);
    }
  }

  /** Masking before a shift changes nothing under the mask. */
  lemma {:induction false} LowShl(a: nat, n: nat, k: nat, j: nat)
    requires j <= k
    ensures Low(Shl(Low(a, k), n), j) == Low(Shl(a, n), j)
    decreases n
  {
    if n == 0 {
      LowShort(a, k, j);
    } else if j > 0 {
      LowDouble(Shl(Low(a, k), n - 1), j);
      LowDouble(Shl(a, n - 1), j);
      LowShl(a, n - 1, k, j - 1);
    }
  }

  /** What is shifted out of the mask is gone. */
  lemma {:induction false} LowGone(a: nat, n: nat, k: nat)
    requires n >= k
    ensures Low(Shl(a, n), k) == 0
    decreases k
  {
    if k > 0 {
      LowDouble(Shl(a, n - 1), k);
      LowGone(a, n - 1, k - 1);
    }
  }

  /** What an updated key contributes after n more bits of shift. */
  lemma UpdateShifted(x: nat, a: nat, n: nat, shift: nat, bits: nat)
    ensures Low(Shl(Update(x, a, shift, bits), n), bits) == Xor(Low(Shl(x, shift + n), bits), Low(Shl(a, n), bits))
  {
    hide *;
    UpdateIs(x, a, shift, bits);
    LowShl(Xor(Shl(x, shift), a), n, bits, bits);
    ShlXor(Shl(x, shift), a, n);
    ShlShl(x, shift, n);
    LowXor(Shl(x, shift + n), Shl(a, n), bits);
  }

  lemma UpdateIs(h: nat, c: nat, shift: nat, bits: nat)
    ensures Update(h, c, shift, bits) == Low(Xor(Shl(h, shift), c), bits)
    ensures Update(h, c, shift, bits) == Xor(Low(Shl(h, shift), bits), Low(c, bits))
  {
    LowXor(Shl(h, shift), c, bits);
  }

  /** After three bytes the key no longer depends on what was there before. */
  lemma KeyForgets(x: nat, a: nat, b: nat, c: nat, shift: nat, bits: nat)
    requires 3 * shift >= bits
    ensures Update(Update(Update(x, a, shift, bits), b, shift, bits), c, shift, bits) == Key(a, b, c, shift, bits)
  {
    ThreeBytes(x, a, b, c, shift, bits);
    ThreeBytes(0, a, b, c, shift, bits);
  }

  lemma ThreeBytes(x: nat, a: nat, b: nat, c: nat, shift: nat, bits: nat)
    requires 3 * shift >= bits
    ensures Update(Update(Update(x, a, shift, bits), b, shift, bits), c, shift, bits)
         == Xor(Xor(Xor(0, Low(Shl(a, shift + shift), bits)), Low(Shl(b, shift), bits)), Low(c, bits))
  {
    hide *;
    var u := Update(x, a, shift, bits);
    var v := Update(u, b, shift, bits);
    UpdateIs(v, c, shift, bits);
    UpdateShifted(u, b, shift, shift, bits);
    UpdateShifted(x, a, shift + shift, shift, bits);
    LowGone(x, shift + (shift + shift), bits);
  }

  /** The third byte follows from the key and the state before it. */
  lemma UpdateInjective(h: nat, c: nat, d: nat, shift: nat, bits: nat)
    requires c < 256 && d < 256 && bits >= 8
    requires Update(h, c, shift, bits) == Update(h, d, shift, bits)
    ensures c == d
  {
    UpdateIs(h, c, shift, bits);
    UpdateIs(h, d, shift, bits);
    XorCancel(Low(Shl(h, shift), bits), Low(c, bits), Low(d, bits));
    PowGrows(8, bits);
    assert Pow2(8) == 256;
    LowSmall(c, bits);
    LowSmall(d, bits);
  }

  /** Two strings with the same key and the same first two bytes agree in the third: it need not be compared. */
  lemma ThirdByteImplied(a: nat, b: nat, c: nat, d: nat, shift: nat, bits: nat)
    requires c < 256 && d < 256 && bits >= 8
    requires Key(a, b, c, shift, bits) == Key(a, b, d, shift, bits)
    ensures c == d
  {
    UpdateInjective(Update(Update(0, a, shift, bits), b, shift, bits), c, d, shift, bits);
  }

  /** h is ready for the third byte of a string that begins with a and b. */
  ghost predicate Primed(h: nat, a: nat, b: nat, shift: nat, bits: nat) {
    forall c: nat {:trigger Update(h, c, shift, bits)} :: c < 256 ==>
      Update(h, c, shift, bits) == Key(a, b, c, shift, bits)
  }

  lemma PrimedNext(h: nat, a: nat, b: nat, c: nat, shift: nat, bits: nat)
    requires Primed(h, a, b, shift, bits) && c < 256 && 3 * shift >= bits
    ensures Primed(Update(h, c, shift, bits), b, c, shift, bits)
  {
    var x := Update(0, a, shift, bits);
    assert Update(h, c, shift, bits) == Key(a, b, c, shift, bits) == Update(Update(x, b, shift, bits), c, shift, bits);
    forall d: nat | d < 256 ensures Update(Update(h, c, shift, bits), d, shift, bits) == Key(b, c, d, shift, bits) {
      KeyForgets(x, b, c, d, shift, bits);
    }
  }

  /** Starting a key from one byte, as the code does when it has lost the thread. */
  lemma PrimedFresh(a: nat, b: nat, shift: nat, bits: nat)
    requires a < 256 && bits >= 8
    ensures Primed(Update(a, b, shift, bits), a, b, shift, bits)
  {
    hide Low, Xor, Shl;
    PowGrows(8, bits);
    assert Pow2(8) == 256;
    ShlNothing(shift);
    XorZero(a);
    LowSmall(a, bits);
    assert Update(0, a, shift, bits) == a;
  }

  lemma {:induction false} ShlNothing(n: nat)
    ensures Shl(0, n) == 0
    decreases n
  {
    if n > 0 { ShlNothing(n - 1); }
  }
}
