/**
 Canonical prefix codes as deflate uses them (RFC 1951, section 3.2.2): a length for each symbol, 0 for one that
 does not occur; codes are sent most significant bit first, so the first bit of a code is the lowest of its reversal.
 */
module FlateCode {
  import opened Counting
  import opened Powers

  const MAX_BITS := 15

  /** The number of codes of each length, none of length 0. */
  ghost function CountsOf(lens: seq<int>): (cnt: seq<int>)
    ensures |cnt| == MAX_BITS + 1 && cnt[0] == 0 && forall l {:trigger cnt[l]} :: 1 <= l <= MAX_BITS ==>
      cnt[l] == Count(lens, l)
  {
    seq(MAX_BITS + 1, l => if l == 0 then 0 else Count(lens, l))
  }

  /** How many of the strings of l bits are codes or begin with one: the Kraft sum up to l, in units of 2^-l. */
  ghost function Used(cnt: seq<int>, l: nat): int
    requires l < |cnt|
  {
    if l == 0 then 0 else 2 * Used(cnt, l - 1) + cnt[l]
  }

  /** The first code of length l. */
  ghost function FirstCode(cnt: seq<int>, l: nat): int
    requires 1 <= l < |cnt|
  {
    2 * Used(cnt, l - 1)
  }

  ghost predicate Lengths(lens: seq<int>) {
    forall s {:trigger lens[s]} :: 0 <= s < |lens| ==> 0 <= lens[s] <= MAX_BITS
  }

  /** The code of symbol s: the first of its length, and one up for each earlier symbol of that length. */
  ghost function Code(lens: seq<int>, s: int): int
    requires 0 <= s < |lens| && 1 <= lens[s] <= MAX_BITS
  {
    FirstCode(CountsOf(lens), lens[s]) + Count(lens[..s], lens[s])
  }

  // ----- the Kraft sum ---------------------------------------------------------------------------------------------

  lemma {:induction false} UsedChange(cnt: seq<int>, b: int, d: int, l: nat)
    requires 1 <= b < |cnt| && l < |cnt|
    ensures Used(cnt[b := cnt[b] + d], l) == Used(cnt, l) + if b <= l then d * Pow2(l - b) else 0
    decreases l
  {
    if l > 0 {
      UsedChange(cnt, b, d, l - 1);
      if b < l { Doubled(d, l - b); }
    }
  }

  lemma Doubled(d: int, n: nat)
    requires n > 0
    ensures 2 * (d * Pow2(n - 1)) == d * Pow2(n)
  {
  }

  lemma {:induction false} UsedNonNegative(cnt: seq<int>, l: nat)
    requires l < |cnt| && forall b {:trigger cnt[b]} :: 1 <= b <= l ==> cnt[b] >= 0
    ensures Used(cnt, l) >= 0
    decreases l
  {
    if l > 0 { UsedNonNegative(cnt, l - 1); }
  }

  /** Strings in use only multiply with their length. */
  lemma {:induction false} UsedGrows(cnt: seq<int>, l: nat, m: nat)
    requires l <= m < |cnt| && forall b {:trigger cnt[b]} :: 1 <= b <= m ==> cnt[b] >= 0
    ensures Used(cnt, l) * Pow2(m - l) <= Used(cnt, m)
    decreases m
  {
    if l < m {
      UsedGrows(cnt, l, m - 1);
      Doubled(Used(cnt, l), m - l);
    }
  }

  /** If no length is over-subscribed at the top, none is below. */
  lemma UsedFits(cnt: seq<int>, l: nat, m: nat)
    requires l <= m < |cnt| && forall b {:trigger cnt[b]} :: 1 <= b <= m ==> cnt[b] >= 0
    requires Used(cnt, m) <= Pow2(m)
    ensures Used(cnt, l) <= Pow2(l)
  {
    hide Used, Pow2;
    UsedGrows(cnt, l, m);
    Pow2Sum(l, m - l);
    if Used(cnt, l) > Pow2(l) {
      Larger(Used(cnt, l), Pow2(l), Pow2(m - l));
    }
  }

  lemma Larger(a: int, b: int, c: int)
    requires a > b && c > 0
    ensures a * c > b * c
  {
  }

  /** Lengths past the last one in use add nothing. */
  lemma {:induction false} UsedToTop(cnt: seq<int>, l: nat, m: nat)
    requires l <= m < |cnt| && forall b {:trigger cnt[b]} :: l < b <= m ==> cnt[b] == 0
    ensures Used(cnt, m) == Used(cnt, l) * Pow2(m - l)
    decreases m
  {
    if l < m {
      UsedToTop(cnt, l, m - 1);
      Doubled(Used(cnt, l), m - l);
    }
  }

  // ----- reversal --------------------------------------------------------------------------------------------------

  /** The low n bits of c in reverse. */
  function Rev(c: nat, n: nat): (r: nat)
    ensures r < Pow2(n)
  {
    if n == 0 then 0 else (c % 2) * Pow2(n - 1) + Rev(c / 2, n - 1)
  }

  lemma {:induction false} RevInjective(a: nat, b: nat, n: nat)
    requires Rev(a, n) == Rev(b, n) && a < Pow2(n) && b < Pow2(n)
    ensures a == b
    decreases n
  {
    if n > 0 {
      assert a % 2 == b % 2 by { TopBit(a % 2, b % 2, Rev(a / 2, n - 1), Rev(b / 2, n - 1), Pow2(n - 1)); }
      RevInjective(a / 2, b / 2, n - 1);
    }
  }

  lemma TopBit(x: nat, y: nat, u: nat, v: nat, p: nat)
    requires x < 2 && y < 2 && u < p && v < p && x * p + u == y * p + v
    ensures x == y && u == v
  {
  }

  /** The low bits of a reversal are the reversal of the high bits. */
  lemma {:induction false} RevPrefix(c: nat, l: nat, k: nat)
    ensures Rev(c, l + k) % Pow2(l) == Rev(Shr(c, k), l)
    decreases k
  {
    if k == 0 {
      SmallMod(Rev(c, l), Pow2(l));
    } else {
      hide *;
      RevPrefix(c / 2, l, k - 1);
      ShrHalf(c, k);
      TopBitOff(c, l, k);
    }
  }

  lemma ShrHalf(c: nat, k: nat)
    requires k > 0
    ensures Shr(c / 2, k - 1) == Shr(c, k)
  {
    ShrShr(c, 1, k - 1);
    assert Shr(c, 1) == c / 2;
  }

  /** The top bit of the reversal is above the lowest l. */
  lemma TopBitOff(c: nat, l: nat, k: nat)
    requires k > 0
    ensures Rev(c, l + k) % Pow2(l) == Rev(c / 2, l + (k - 1)) % Pow2(l)
  {
    var low, p, q := Rev(c / 2, l + (k - 1)), Pow2(l), Pow2(k - 1);
    Pow2Sum(l, k - 1);
    assert Rev(c, l + k) == (c % 2) * (p * q) + low;
    hide Rev, Pow2;
    Assoc(c % 2, q, p);
    assert (c % 2) * (p * q) == ((c % 2) * q) * p;
    AddMultiple(low, (c % 2) * q, p);
  }

  lemma SmallMod(a: nat, p: nat)
    requires a < p
    ensures a % p == a
  {
  }

  lemma AddMultiple(a: nat, q: nat, p: nat)
    requires p > 0
    ensures (q * p + a) % p == a % p && (q * p + a) / p == q + a / p
  {
    Distribute(q, a / p, p);
    DivIs(q * p + a, p, q + a / p, a % p);
  }

  lemma Distribute(a: int, b: int, c: int)
    ensures (a + b) * c == a * c + b * c
  {
  }

  lemma Assoc(a: nat, b: nat, c: nat)
    ensures a * (c * b) == (a * b) * c
  {
  }

  // ----- codes -----------------------------------------------------------------------------------------------------

  lemma CodeInRange(lens: seq<int>, s: int)
    requires 0 <= s < |lens| && 1 <= lens[s] <= MAX_BITS
    ensures 0 <= FirstCode(CountsOf(lens), lens[s]) <= Code(lens, s) < Used(CountsOf(lens), lens[s])
  {
    hide Count;
    UsedNonNegative(CountsOf(lens), lens[s] - 1);
    CountBefore(lens, s);
  }

  /** A code cut short by k bits lies past the codes of its new length. */
  lemma {:induction false} CutShort(cnt: seq<int>, l: nat, k: nat, c: nat)
    requires 0 < k && l + k < |cnt| && c >= FirstCode(cnt, l + k) && forall b {:trigger cnt[b]} :: 1 <= b < |cnt| ==>
      cnt[b] >= 0
    ensures Shr(c, k) >= Used(cnt, l)
    decreases k
  {
    ShrShr(c, 1, k - 1);
    assert Shr(c, 1) == c / 2 >= Used(cnt, l + k - 1);
    if k > 1 {
      CutShort(cnt, l, k - 1, c / 2);
    } else {
      assert Shr(c / 2, 0) == c / 2;
    }
  }

  /** The bits of the stream so far, the first of them lowest, start with the code of symbol s. */
  ghost predicate Starts(h: nat, lens: seq<int>, s: int) {
    0 <= s < |lens| && 1 <= lens[s] <= MAX_BITS && 0 <= Code(lens, s)
      && h % Pow2(lens[s]) == Rev(Code(lens, s), lens[s])
  }

  lemma SameLength(lens: seq<int>, s: int, t: int)
    requires 0 <= s < t < |lens| && 1 <= lens[s] == lens[t] <= MAX_BITS
    ensures Code(lens, s) < Code(lens, t)
  {
    hide Count;
    CountGrows(lens, s, t, lens[s]);
  }

  lemma ModMod(h: nat, l: nat, m: nat)
    requires l <= m
    ensures h % Pow2(m) % Pow2(l) == h % Pow2(l)
  {
    Pow2Sum(l, m - l);
    ModOfMultiple(h, Pow2(l), Pow2(m - l), Pow2(m));
  }

  lemma ModOfMultiple(h: nat, p: nat, q: nat, m: nat)
    requires p > 0 && m > 0 && m == p * q
    ensures h % m % p == h % p
  {
    var a, r := h / m, h % m;
    DivMod(h, m);
    Shuffle(a, p, q);
    Rebuild(h, a, q, p, r);
  }

  lemma DivMod(h: nat, m: nat)
    requires m > 0
    ensures h == (h / m) * m + h % m
  {
  }

  lemma Rebuild(h: nat, a: nat, q: nat, p: nat, r: nat)
    requires p > 0 && h == (a * q) * p + r
    ensures h % p == r % p
  {
    AddMultiple(r, a * q, p);
  }

  lemma Shuffle(a: nat, p: nat, q: nat)
    ensures a * (p * q) == (a * q) * p
  {
  }

  /** No code begins another: a stream starts with the code of at most one symbol. */
  lemma PrefixFree(lens: seq<int>, s: int, t: int, h: nat)
    requires Lengths(lens) && Used(CountsOf(lens), MAX_BITS) <= Pow2(MAX_BITS)
    requires Starts(h, lens, s) && Starts(h, lens, t)
    ensures s == t
  {
    if lens[s] <= lens[t] { PrefixOfLonger(lens, s, t, h); } else { PrefixOfLonger(lens, t, s, h); }
  }

  lemma PrefixOfLonger(lens: seq<int>, s: int, t: int, h: nat)
    requires Lengths(lens) && Used(CountsOf(lens), MAX_BITS) <= Pow2(MAX_BITS)
    requires Starts(h, lens, s) && Starts(h, lens, t) && lens[s] <= lens[t]
    ensures s == t
  {
    hide Used, Code, FirstCode, CountsOf, Rev, Pow2, Count;
    var cnt, l, k := CountsOf(lens), lens[s], lens[t] - lens[s];
    var c, d := Code(lens, s), Code(lens, t);
    CodeInRange(lens, s);
    CodeInRange(lens, t);
    UsedFits(cnt, l, MAX_BITS);
    UsedFits(cnt, l + k, MAX_BITS);
    if s < t && k == 0 { SameLength(lens, s, t); }
    if t < s && k == 0 { SameLength(lens, t, s); }
    ModMod(h, l, l + k);
    RevPrefix(d, l, k);
    if k > 0 { CutShort(cnt, l, k, d); }
    ShrFits(d, l, k);
    RevInjective(c, Shr(d, k), l);
    assert k == 0 ==> Shr(d, k) == d;
  }

  lemma {:induction false} ShrFits(d: nat, l: nat, k: nat)
    requires d < Pow2(l + k)
    ensures Shr(d, k) < Pow2(l)
    decreases k
  {
    if k > 0 {
      ShrFits(d / 2, l, k - 1);
      ShrShr(d, 1, k - 1);
      assert Shr(d, 1) == d / 2;
    }
  }

  // ----- counting backwards ------------------------------------------------------------------------------------------

  /** Zeros appended to a code leave its reversal as it is. */
  lemma {:induction false} RevAppended(c: nat, l: nat, k: nat)
    ensures Rev(c * Pow2(k), l + k) == Rev(c, l)
    decreases k
  {
    if k > 0 {
      EvenHalf(c, Pow2(k - 1));
      RevAppended(c, l, k - 1);
    }
  }

  lemma EvenHalf(c: nat, p: nat)
    ensures c * (2 * p) % 2 == 0 && c * (2 * p) / 2 == c * p
  {
    assert c * (2 * p) == 2 * (c * p);
  }

  /** One up, in reversal: an odd number carries on to its half. */
  lemma RevUp(q: nat, m: nat)
    requires m > 0
    ensures q % 2 == 1 ==> Rev(q + 1, m) == Rev(q / 2 + 1, m - 1) && Rev(q, m) == Pow2(m - 1) + Rev(q / 2, m - 1)
    ensures q % 2 == 0 ==> Rev(q + 1, m) == Pow2(m - 1) + Rev(q / 2, m - 1) && Rev(q, m) == Rev(q / 2, m - 1)
  {
    if q % 2 == 1 {
      assert (q + 1) / 2 == q / 2 + 1 && (q + 1) % 2 == 0;
    } else {
      assert (q + 1) / 2 == q / 2 && (q + 1) % 2 == 1;
    }
  }

  /** What the loop over incr sees of huff. */
  lemma TopBits(huff: nat, m: nat, q: nat)
    requires m > 0 && huff % Pow2(m) == Rev(q, m)
    ensures huff / Pow2(m - 1) % 2 == q % 2 && huff % Pow2(m - 1) == Rev(q / 2, m - 1)
  {
    hide Rev, Pow2;
    RevIs(q, m);
    SeenBits(huff, Pow2(m), Pow2(m - 1), q % 2, Rev(q / 2, m - 1), Rev(q, m));
  }

  lemma SeenBits(huff: nat, whole: nat, p: nat, b: nat, v: nat, seen: nat)
    requires p > 0 && whole == 2 * p && b < 2 && v < p && seen == b * p + v && huff % whole == seen
    ensures huff / p % 2 == b && huff % p == v
  {
    var a := huff / whole;
    assert huff == a * whole + seen by { DivMod(huff, whole); }
    TwoParts(huff, a, whole, p, b, v);
  }

  lemma RevIs(q: nat, m: nat)
    requires m > 0
    ensures Rev(q, m) == (q % 2) * Pow2(m - 1) + Rev(q / 2, m - 1) && Pow2(m) == 2 * Pow2(m - 1)
  {
  }

  lemma TwoParts(huff: nat, a: nat, whole: nat, p: nat, b: nat, v: nat)
    requires p > 0 && whole == 2 * p && b < 2 && v < p && huff == a * whole + (b * p + v)
    ensures huff / p % 2 == b && huff % p == v
  {
    Twice(a, p);
    Distribute(2 * a, b, p);
    Regroup(a, p);
    DivIs(huff, p, 2 * a + b, v);
  }

  lemma Regroup(a: nat, p: nat)
    ensures 2 * (a * p) == (2 * a) * p
  {
  }

  /** The code after c, in reversal: the backwards increment. */
  method IncrementReversed(huff0: nat, len: nat, ghost c: nat) returns (huff: nat)
    requires len >= 1 && huff0 == Rev(c, len)
    ensures huff == Rev(c + 1, len)
  {
    hide Rev, Pow2;
    huff := huff0;
    ghost var m, q := len, c;
    var incr := PowerOf(len - 1);
    SmallMod(huff, Pow2(len));
    while incr != 0 && huff / incr % 2 == 1
      invariant 0 <= m <= len && incr == (if m == 0 then 0 else Pow2(m - 1)) && huff % Pow2(m) == Rev(q, m)
        && Rev(c + 1, len) == Rev(q + 1, m)
      decreases m
    {
      TopBits(huff, m, q);
      RevUp(q, m);
      HalfPower(m);
      incr := incr / 2;
      m, q := m - 1, q / 2;
    }
    if incr != 0 {
      TopBits(huff, m, q);
      RevUp(q, m);
      huff := huff % incr;
      huff := huff + incr;
    } else {
      RevNone(q + 1);
      huff := 0;
    }
  }

  /** 1 << n */
  method PowerOf(n: nat) returns (p: nat)
    ensures p == Pow2(n)
  {
    p := 1;
    for k := 0 to n
      invariant p == Pow2(k)
    {
      p := p * 2;
    }
  }

  lemma HalfPower(m: nat)
    requires m > 0
    ensures Pow2(m - 1) / 2 == if m == 1 then 0 else Pow2(m - 2)
  {
  }

  lemma RevNone(c: nat)
    ensures Rev(c, 0) == 0
  {
  }

  // ----- every stream ------------------------------------------------------------------------------------------------

  /** The symbol of length l that has r others of its length before it. */
  lemma {:induction false} NthOfLength(lens: seq<int>, l: int, r: nat) returns (s: nat)
    requires r < Count(lens, l)
    ensures s < |lens| && lens[s] == l && Count(lens[..s], l) == r
    decreases |lens|
  {
    var rest := lens[..|lens| - 1];
    if r < Count(rest, l) {
      s := NthOfLength(rest, l, r);
      assert rest[..s] == lens[..s];
    } else {
      s := |lens| - 1;
    }
  }

  /** The first l bits of a stream, the first of them highest. */
  ghost function Head(h: nat, l: nat): (v: nat)
    ensures v < Pow2(l)
  {
    Rev(h, l)
  }

  lemma {:induction false} RevTwice(c: nat, n: nat)
    ensures Rev(Rev(c, n), n) == c % Pow2(n)
    decreases n
  {
    if n > 0 {
      RevTwice(c / 2, n - 1);
      RevTop(c % 2, Rev(c / 2, n - 1), n);
      LowBit(c, Pow2(n - 1));
    } else {
      assert c % 1 == 0;
    }
  }

  lemma LowBit(c: nat, p: nat)
    requires p > 0
    ensures c % (2 * p) == 2 * (c / 2 % p) + c % 2
  {
    var a, r := c / 2 / p, c / 2 % p;
    DivMod(c / 2, p);
    assert c == a * (2 * p) + (2 * r + c % 2);
    DivIs(c, 2 * p, a, 2 * r + c % 2);
  }

  /** A number with b on top of v, reversed. */
  lemma {:induction false} RevTop(b: nat, v: nat, n: nat)
    requires n > 0 && b < 2 && v < Pow2(n - 1)
    ensures Rev(b * Pow2(n - 1) + v, n) == 2 * Rev(v, n - 1) + b
    decreases n
  {
    if n == 1 {
      assert Pow2(0) == 1 && Rev(b / 2, 0) == 0 && Rev(v, 0) == 0;
    } else {
      var p := Pow2(n - 2);
      Odd(b, v, p);
      RevTop(b, v / 2, n - 1);
      assert Rev(v, n - 1) == (v % 2) * p + Rev(v / 2, n - 2);
      Twice(v % 2, p);
    }
  }

  lemma Odd(b: nat, v: nat, p: nat)
    ensures (b * (2 * p) + v) % 2 == v % 2 && (b * (2 * p) + v) / 2 == b * p + v / 2
  {
    assert b * (2 * p) == 2 * (b * p);
  }

  lemma Twice(b: nat, p: nat)
    ensures b * (2 * p) == 2 * (b * p)
  {
  }

  lemma HeadNext(h: nat, l: nat)
    ensures 2 * Head(h, l) <= Head(h, l + 1) <= 2 * Head(h, l) + 1
  {
    RevPrefixLow(h, l);
  }

  lemma {:induction false} RevPrefixLow(c: nat, n: nat)
    ensures Rev(c, n + 1) == 2 * Rev(c, n) + Shr(c, n) % 2
    decreases n
  {
    if n > 0 {
      RevPrefixLow(c / 2, n - 1);
      ShrShr(c, 1, n - 1);
      assert Shr(c, 1) == c / 2;
      Twice(c % 2, Pow2(n - 1));
    } else {
      assert Rev(c / 2, 0) == 0;
    }
  }

  /** A complete code decodes every stream. */
  lemma EveryStream(lens: seq<int>, h: nat) returns (s: nat)
    requires Lengths(lens) && Used(CountsOf(lens), MAX_BITS) == Pow2(MAX_BITS)
    ensures s < |lens| && Starts(h, lens, s)
  {
    var cnt := CountsOf(lens);
    assert Head(h, 0) == 0 && Used(cnt, 0) == 0;
    var l := FirstInside(cnt, h, MAX_BITS);
    var r := Head(h, l) - FirstCode(cnt, l);
    s := NthOfLength(lens, l, r);
    assert Code(lens, s) == Head(h, l);
    RevTwice(h, l);
  }

  /** The lengths are complete if and only if the last code of the longest length is all ones. */
  lemma LastCode(cnt: seq<int>, l: nat)
    requires |cnt| == MAX_BITS + 1 && 1 <= l <= MAX_BITS && forall b {:trigger cnt[b]} ::
      l < b <= MAX_BITS ==> cnt[b] == 0
    ensures FirstCode(cnt, l) + cnt[l] - 1 == Pow2(l) - 1 <==> Used(cnt, MAX_BITS) == Pow2(MAX_BITS)
  {
    LastIs(cnt, l);
    hide *;
    UsedToTop(cnt, l, MAX_BITS);
    Pow2Sum(l, MAX_BITS - l);
    SameFactor(Used(cnt, l), Pow2(l), Pow2(MAX_BITS - l));
  }

  lemma LastIs(cnt: seq<int>, l: nat)
    requires |cnt| == MAX_BITS + 1 && 1 <= l <= MAX_BITS
    ensures FirstCode(cnt, l) + cnt[l] == Used(cnt, l)
  {
  }

  lemma SameFactor(u: int, p: int, q: int)
    requires q > 0
    ensures u * q == p * q <==> u == p
  {
    if u < p { Larger(p, u, q); } else if u > p { Larger(u, p, q); }
  }

  /** The same of a symbol: the last of the longest length. */
  lemma LastSymbol(lens: seq<int>, s: nat)
    requires Lengths(lens) && s < |lens| && 1 <= lens[s] && forall i {:trigger lens[i]} ::
      0 <= i < |lens| ==> lens[i] <= lens[s]
    requires forall i {:trigger lens[i]} :: s < i < |lens| ==> lens[i] != lens[s]
    ensures Code(lens, s) == Pow2(lens[s]) - 1 <==> Used(CountsOf(lens), MAX_BITS) == Pow2(MAX_BITS)
  {
    var l, cnt := lens[s], CountsOf(lens);
    CountToLast(lens, s, |lens|);
    assert lens[..|lens|] == lens;
    forall b {:trigger cnt[b]} | l < b <= MAX_BITS ensures cnt[b] == 0 { CountNothing(lens, b); }
    LastCode(cnt, l);
    hide Used, Pow2;
  }

  lemma {:induction false} CountToLast(lens: seq<int>, s: nat, n: nat)
    requires s < n <= |lens| && forall i {:trigger lens[i]} :: s < i < n ==> lens[i] != lens[s]
    ensures Count(lens[..n], lens[s]) == Count(lens[..s], lens[s]) + 1
    decreases n
  {
    CountStep(lens, n - 1, lens[s]);
    if s < n - 1 { CountToLast(lens, s, n - 1); }
  }

  lemma {:induction false} CountNothing(lens: seq<int>, b: int)
    requires forall i {:trigger lens[i]} :: 0 <= i < |lens| ==> lens[i] < b
    ensures Count(lens, b) == 0
  {
    if lens != [] { CountNothing(lens[..|lens| - 1], b); }
  }

  /** The shortest head that is below what is used. */
  lemma {:induction false} FirstInside(cnt: seq<int>, h: nat, m: nat) returns (l: nat)
    requires m < |cnt| && 0 < m && Head(h, m) < Used(cnt, m)
    ensures 1 <= l <= m && FirstCode(cnt, l) <= Head(h, l) < Used(cnt, l)
    decreases m
  {
    HeadNext(h, m - 1);
    if Head(h, m - 1) < Used(cnt, m - 1) && m > 1 {
      l := FirstInside(cnt, h, m - 1);
    } else {
      l := m;
    }
  }
}
