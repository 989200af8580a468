/** Powers of two. */
module Powers {

  function Pow2(n: nat): (r: nat)
    ensures r > 0
  {
    if n == 0 then 1 else 2 * Pow2(n - 1)
  }

  lemma {:induction false} Pow2Sum(m: nat, n: nat)
    ensures Pow2(m + n) == Pow2(m) * Pow2(n)
    decreases m
  {
    if m > 0 {
      Pow2Sum(m - 1, n);
      assert Pow2(m + n) == 2 * (Pow2(m - 1) * Pow2(n));
    }
  }

  lemma {:induction false} PowGrows(m: nat, n: nat)
    requires m <= n
    ensures Pow2(m) <= Pow2(n)
    decreases n
  {
    if m < n { PowGrows(m, n - 1); }
  }

  /** c shifted right by k. */
  function Shr(c: nat, k: nat): nat {
    if k == 0 then c else Shr(c, k - 1) / 2
  }

  lemma {:induction false} ShrShr(c: nat, j: nat, k: nat)
    ensures Shr(Shr(c, j), k) == Shr(c, j + k)
    decreases k
  {
    if k > 0 { ShrShr(c, j, k - 1); }
  }

  /** Shifting right keeps the comparison with a multiple of the power of two. */
  lemma {:induction false} ShrCompare(c: nat, u: nat, k: nat)
    ensures Shr(c, k) >= u <==> c >= u * Pow2(k)
    decreases k
  {
    if k > 0 {
      hide *;
      ShrCompare(c, 2 * u, k - 1);
      ShrLast(c, u, k);
    } else {
      assert u * Pow2(0) == u;
    }
  }

  lemma ShrLast(c: nat, u: nat, k: nat)
    requires k > 0
    ensures Shr(c, k) >= u <==> Shr(c, k - 1) >= 2 * u
    ensures u * Pow2(k) == (2 * u) * Pow2(k - 1)
  {
    var p := Pow2(k - 1);
    assert Pow2(k) == 2 * p;
    hide Pow2;
    assert u * (2 * p) == (2 * u) * p;
  }

  /** Bitwise or. */
  function BitOr(a: nat, b: nat): nat
    decreases a + b
  {
    if a == 0 then b else if b == 0 then a
    else (if a % 2 == 1 || b % 2 == 1 then 1 else 0) + 2 * BitOr(a / 2, b / 2)
  }

  lemma BitOrEven(a: nat, b: nat)
    ensures BitOr(a, 2 * b) == a % 2 + 2 * BitOr(a / 2, b)
  {
    HalvesOf(a, b);
    if a == 0 {
      assert BitOr(0, b) == b && BitOr(0, 2 * b) == 2 * b;
    } else if b == 0 {
      assert BitOr(a / 2, 0) == a / 2;
    } else {
      var c := 2 * b;
      assert BitOr(a, c) == (if a % 2 == 1 || c % 2 == 1 then 1 else 0) + 2 * BitOr(a / 2, c / 2);
    }
  }

  lemma HalvesOf(a: nat, b: nat)
    ensures (2 * b) % 2 == 0 && (2 * b) / 2 == b && a == a % 2 + 2 * (a / 2)
  {
  }

  /** An n-bit number or-ed with a number shifted up by n is their sum. */
  lemma {:induction false} BitOrShifted(c: nat, i: nat, n: nat)
    requires c < Pow2(n)
    ensures BitOr(c, Pow2(n) * i) == c + Pow2(n) * i
    decreases n
  {
    if n == 0 {
      assert Pow2(0) * i == i;
    } else {
      var q := Pow2(n - 1) * i;
      assert Pow2(n) * i == 2 * q;
      BitOrEven(c, q);
      BitOrShifted(c / 2, i, n - 1);
    }
  }

  /** Quotient and remainder are unique. */
  lemma DivIs(a: int, p: int, q: int, r: int)
    requires p > 0 && a == q * p + r && 0 <= r < p
    ensures a / p == q && a % p == r
  {
    var d := q - a / p;
    assert d * p == q * p - (a / p) * p;
    assert a == (a / p) * p + a % p;
  }
}
