/**
 The Adler-32 checksum of zlib, with the remainders put off, and for a message in two parts from the checksums of the
 parts (dep/zlib/adler32.c:11-13, 63-131, 143-169). Sums are of 32 bits, so that each addition is shown not to wrap.
 */
module Adler {

  newtype byte = x: int | 0 <= x < 0x100
  newtype uint32 = x: int | 0 <= x < 0x1_0000_0000

  const BASE: nat := 65521
  const NMAX: nat := 5552

  datatype Buffer = Null | Message(s: seq<byte>)

  /** The sum of a and the bytes. */
  function First(a: nat, s: seq<byte>): nat {
    if s == [] then a else First(a, s[..|s| - 1]) + s[|s| - 1] as nat
  }

  /** The sum of b and the first sums after each byte. */
  function Second(a: nat, b: nat, s: seq<byte>): nat {
    if s == [] then b else Second(a, b, s[..|s| - 1]) + First(a, s)
  }

  function Lower(adler: nat): nat { adler % 0x1_0000 }

  function Upper(adler: nat): nat { adler / 0x1_0000 }

  /** Both sums, reduced, in one word. */
  function Pair(a: nat, b: nat): nat { a % BASE + 0x1_0000 * (b % BASE) }

  /** The checksum of a message that goes on from adler. */
  function Adler(adler: nat, s: seq<byte>): nat {
    Pair(First(Lower(adler), s), Second(Lower(adler), Upper(adler), s))
  }

  // ----- the sums ------------------------------------------------------------------------------------------------

  lemma SumsNext(a: nat, b: nat, s: seq<byte>, i: nat)
    requires i < |s|
    ensures First(a, s[..i + 1]) == First(a, s[..i]) + s[i] as nat
    ensures Second(a, b, s[..i + 1]) == Second(a, b, s[..i]) + First(a, s[..i + 1])
  {
    assert s[..i + 1][..i] == s[..i];
  }

  lemma SumsNone(a: nat, b: nat, s: seq<byte>)
    ensures First(a, s[..0]) == a && Second(a, b, s[..0]) == b
  {
  }

  lemma SumsLast(a: nat, b: nat, s: seq<byte>)
    requires s != []
    ensures First(a, s) == First(a, s[..|s| - 1]) + s[|s| - 1] as nat
    ensures Second(a, b, s) == Second(a, b, s[..|s| - 1]) + First(a, s)
  {
  }

  lemma {:induction false} FirstJoins(a: nat, s: seq<byte>, t: seq<byte>)
    ensures First(a, s + t) + 1 == First(a, s) + First(1, t)
    decreases |t|
  {
    if t == [] {
      assert s + t == s;
    } else {
      hide First;
      var u := t[..|t| - 1];
      assert (s + t)[..|s + t| - 1] == s + u;
      SumsLast(a, 0, s + t);
      SumsLast(1, 0, t);
      FirstJoins(a, s, u);
    }
  }

  /** The second sum of the whole: the first sum of the first part is counted once for each byte of the second. */
  lemma {:induction false} SecondJoins(a: nat, b: nat, s: seq<byte>, t: seq<byte>)
    ensures Second(a, b, s + t) + |t| == Second(a, b, s) + |t| * First(a, s) + Second(1, 0, t)
    decreases |t|
  {
    if t == [] {
      assert s + t == s;
    } else {
      hide First, Second;
      var u := t[..|t| - 1];
      assert (s + t)[..|s + t| - 1] == s + u;
      SumsLast(a, b, s + t);
      SumsLast(1, 0, t);
      SecondJoins(a, b, s, u);
      FirstJoins(a, s, t);
      OneMoreTime(|t|, First(a, s));
    }
  }

  lemma OneMoreTime(n: nat, m: nat)
    requires n > 0
    ensures n * m == (n - 1) * m + m
  {
  }

  // ----- remainders ------------------------------------------------------------------------------------------------

  lemma ModAdds(x: int, y: int, d: int, e: int)
    requires x % BASE == y % BASE && d % BASE == e % BASE
    ensures (x + d) % BASE == (y + e) % BASE
  {
    var p, q := x / BASE - y / BASE, d / BASE - e / BASE;
    assert x == y + BASE * p && d == e + BASE * q;
    ModMoves(y + e, p + q);
  }

  lemma ModMoves(x: int, k: int)
    ensures (x + BASE * k) % BASE == x % BASE
  {
  }

  lemma ModOnce(x: int)
    ensures (x % BASE) % BASE == x % BASE
  {
  }

  lemma ModTimes(m: nat, n: nat)
    ensures ((m % BASE) * (n % BASE)) % BASE == (m * n) % BASE
  {
    var p, q, r, t := m / BASE, m % BASE, n / BASE, n % BASE;
    assert m == BASE * p + q && n == BASE * r + t;
    assert m * n == q * t + BASE * (p * n + q * r) by {
      assert m * n == BASE * p * n + q * n;
      assert q * n == q * (BASE * r) + q * t;
    }
    ModMoves(q * t, p * n + q * r);
  }

  // ----- how far the sums may grow ---------------------------------------------------------------------------------

  /** What the second sum may have come to j bytes after the last remainder was taken. */
  function Bound(j: nat): nat {
    if j == 0 then 65535 else Bound(j - 1) + 65535 + 255 * j
  }

  lemma {:induction false} BoundIs(j: nat)
    ensures 2 * Bound(j) == (j + 1) * 131070 + 255 * (j * (j + 1))
    decreases j
  {
    if j > 0 {
      BoundIs(j - 1);
      assert j * (j + 1) == (j - 1) * j + 2 * j;
    }
  }

  lemma {:induction false} BoundGrows(j: nat, k: nat)
    requires j <= k
    ensures Bound(j) <= Bound(k)
    decreases k
  {
    if j < k { BoundGrows(j, k - 1); }
  }

  /** NMAX bytes may go by; this holds even from sums of all ones, which are not remainders. */
  lemma NoOverflow(j: nat)
    requires j <= NMAX
    ensures Bound(j) < 0x1_0000_0000 && 65535 + 255 * j <= Bound(j)
  {
    BoundIs(NMAX);
    BoundGrows(j, NMAX);
    BoundIs(j);
    assert j * (j + 1) >= 0;
    if j > 0 { BoundGrows(0, j - 1); }
  }

  lemma MoreTerms(m: nat, n: nat)
    requires m <= n
    ensures m * (m + 1) <= n * (n + 1)
  {
    assert n * (n + 1) == m * (m + 1) + (n - m) * (n + m + 1);
  }

  /** From sums that are remainders, NMAX bytes may go by and no more. */
  lemma NmaxIsLargest(n: nat)
    ensures 255 * (n * (n + 1) / 2) + (n + 1) * (BASE - 1) <= 0xffff_ffff <==> n <= NMAX
  {
    if n <= NMAX { MoreTerms(n, NMAX); } else { MoreTerms(NMAX + 1, n); }
  }

  lemma BoundNext(j: nat)
    ensures Bound(0) == 65535 && Bound(j + 1) == Bound(j) + 65535 + 255 * (j + 1)
  {
  }

  /** The sums are right but for multiples of BASE, j bytes after the last remainders. */
  ghost predicate Right(a: nat, b: nat, s: seq<byte>, i: nat, adler: uint32, sum2: uint32, j: nat) {
    && i <= |s| && j <= NMAX
    && adler as int <= 65535 + 255 * j && sum2 as int <= Bound(j)
    && adler as int % BASE == First(a, s[..i]) % BASE
    && sum2 as int % BASE == Second(a, b, s[..i]) % BASE
  }

  lemma RightAtFirst(a: nat, b: nat, s: seq<byte>, adler: uint32, sum2: uint32)
    requires a == adler as nat <= 65535 && b == sum2 as nat <= 65535
    ensures Right(a, b, s, 0, adler, sum2, 0)
  {
    SumsNone(a, b, s);
    BoundNext(0);
  }

  lemma RightNext(a: nat, b: nat, s: seq<byte>, i: nat, adler: uint32, sum2: uint32, j: nat)
    requires Right(a, b, s, i, adler, sum2, j) && i < |s| && j < NMAX
    ensures adler as int + s[i] as int < 0x1_0000_0000
    ensures sum2 as int + (adler as int + s[i] as int) < 0x1_0000_0000
    ensures var c := adler + s[i] as uint32; Right(a, b, s, i + 1, c, sum2 + c, j + 1)
  {
    hide First, Second, Bound;
    SumsNext(a, b, s, i);
    NoOverflow(j + 1);
    BoundNext(j);
    var c := adler as int + s[i] as int;
    ModAdds(adler as int, First(a, s[..i]), s[i] as int, s[i] as int);
    ModAdds(sum2 as int, Second(a, b, s[..i]), c, First(a, s[..i + 1]));
  }

  lemma RightReduced(a: nat, b: nat, s: seq<byte>, i: nat, adler: uint32, sum2: uint32, j: nat)
    requires Right(a, b, s, i, adler, sum2, j)
    ensures Right(a, b, s, i, (adler as int % BASE) as uint32, (sum2 as int % BASE) as uint32, 0)
  {
    hide First, Second;
    ModOnce(adler as int);
    ModOnce(sum2 as int);
  }

  // ----- the code --------------------------------------------------------------------------------------------------

  /** count bytes, which the sums have room for. */
  method Take(adler: uint32, sum2: uint32, s: seq<byte>, i: nat, count: nat, ghost a: nat, ghost b: nat, ghost j: nat)
    returns (c: uint32, d: uint32)
    requires Right(a, b, s, i, adler, sum2, j) && i + count <= |s| && j + count <= NMAX
    ensures Right(a, b, s, i + count, c, d, j + count)
  {
    hide *;
    c, d := adler, sum2;
    for k := 0 to count
      invariant Right(a, b, s, i + k, c, d, j + k)
    {
      RightNext(a, b, s, i + k, c, d, j + k);
      c := c + s[i + k] as uint32;
      d := d + c;
    }
  }

  /** The one byte brings the second sum to twice the base, and only one base is taken off it. */
  predicate Unreduced(adler: nat, s: seq<byte>) {
    |s| == 1 && Upper(adler) + (Lower(adler) + s[0] as nat) % BASE >= 2 * BASE
  }

  /** A start whose second sum is no remainder, and one byte of zero. */
  lemma OneByteUnreduced()
    ensures Unreduced(0xffff_fff0, [0])
  {
  }

  lemma OneByte(adler: nat, s: seq<byte>)
    requires |s| == 1
    ensures First(Lower(adler), s) == Lower(adler) + s[0] as nat
    ensures Second(Lower(adler), Upper(adler), s) == Upper(adler) + First(Lower(adler), s)
  {
    assert s[..0] == [];
    SumsLast(Lower(adler), Upper(adler), s);
  }

  /** The one byte case, by two subtractions. */
  lemma OneByteIs(adler: nat, s: seq<byte>, c: nat, d: nat)
    requires |s| == 1 && adler < 0x1_0000_0000
    requires var x := Lower(adler) + s[0] as nat; c == if x >= BASE then x - BASE else x
    requires var y := Upper(adler) + c; d == if y >= BASE then y - BASE else y
    ensures c < BASE && d < 0x1_0000
    ensures c + 0x1_0000 * d == Adler(adler, s) + if Unreduced(adler, s) then 0x1_0000 * BASE else 0
  {
    OneByte(adler, s);
    var a, b := First(Lower(adler), s), Second(Lower(adler), Upper(adler), s);
    TakenOnce(Lower(adler) + s[0] as nat, c);
    ModAdds(a, c, Upper(adler), Upper(adler));
    TakenOnce(Upper(adler) + c, d);
    hide First, Second;
  }

  /** One base taken off a sum of at least the base leaves the remainder, or, from twice the base on, one base more. */
  lemma TakenOnce(x: nat, c: nat)
    requires c == (if x >= BASE then x - BASE else x) && x < 3 * BASE
    ensures c == x % BASE + if x >= 2 * BASE then BASE else 0
    ensures c % BASE == x % BASE
  {
  }

  lemma RightDone(adler: nat, s: seq<byte>, c: uint32, d: uint32)
    requires Right(Lower(adler), Upper(adler), s, |s|, c, d, 0) && c as nat < BASE && d as nat < BASE
    ensures c as nat + 0x1_0000 * d as nat == Adler(adler, s)
  {
    hide First, Second, Bound;
    assert s[..|s|] == s;
  }

  /** The checksum of the buffer, going on from adler; of no buffer, that of no message. */
  method Adler32Z(adler: uint32, buf: Buffer) returns (r: uint32)
    ensures buf.Null? ==> r == 1
    ensures buf.Message? ==> r as nat == Adler(adler as nat, buf.s) +
                                         if Unreduced(adler as nat, buf.s) then 0x1_0000 * BASE else 0
  {
    var c, d := adler % 0x1_0000, adler / 0x1_0000;
    if buf.Null? { return 1; }
    var s, base := buf.s, BASE as uint32;
    if |s| == 1 {
      c := c + s[0] as uint32;
      if c >= base { c := c - base; }
      d := d + c;
      if d >= base { d := d - base; }
      OneByteIs(adler as nat, s, c as nat, d as nat);
      return c + 0x1_0000 * d;
    }
    SplitIs(adler, s);
    if |s| < 16 { r := Short(c, d, s, adler); } else { r := Long(c, d, s, adler); }
  }

  lemma SplitIs(adler: uint32, s: seq<byte>)
    ensures var a, b := Lower(adler as nat), Upper(adler as nat);
      Right(a, b, s, 0, adler % 0x1_0000, adler / 0x1_0000, 0)
  {
    RightAtFirst(Lower(adler as nat), Upper(adler as nat), s, adler % 0x1_0000, adler / 0x1_0000);
  }

  /** Fewer than sixteen bytes take the first sum to less than twice the base. */
  method Short(adler: uint32, sum2: uint32, s: seq<byte>, ghost start: uint32) returns (r: uint32)
    requires Right(Lower(start as nat), Upper(start as nat), s, 0, adler, sum2, 0) && |s| < 16
    ensures r as nat == Adler(start as nat, s)
  {
    hide First, Second, Bound, Adler;
    var base := BASE as uint32;
    ghost var a, b := Lower(start as nat), Upper(start as nat);
    var c, d := Take(adler, sum2, s, 0, |s|, a, b, 0);
    RightReduced(a, b, s, |s|, c, d, |s|);
    if c >= base { c := c - base; }
    d := d % base;
    RightDone(start as nat, s, c, d);
    r := c + 0x1_0000 * d;
  }

  /** NMAX bytes at a time between remainders, sixteen of them at once, and then those that are left. */
  method Long(adler: uint32, sum2: uint32, s: seq<byte>, ghost start: uint32) returns (r: uint32)
    requires Right(Lower(start as nat), Upper(start as nat), s, 0, adler, sum2, 0) && |s| >= 16
    ensures r as nat == Adler(start as nat, s)
  {
    hide First, Second, Bound, Adler, Right;
    var base := BASE as uint32;
    ghost var a, b := Lower(start as nat), Upper(start as nat);
    var c, d, i: nat := adler, sum2, 0;
    while |s| - i >= NMAX
      invariant i <= |s| && Right(a, b, s, i, c, d, 0)
      invariant i > 0 ==> c < base && d < base
      decreases |s| - i
    {
      ghost var from := i;
      for n := 0 to NMAX / 16
        invariant i == from + 16 * n && Right(a, b, s, i, c, d, 16 * n)
      {
        c, d := Take(c, d, s, i, 16, a, b, 16 * n);
        i := i + 16;
      }
      RightReduced(a, b, s, i, c, d, NMAX);
      c, d := c % base, d % base;
    }
    if i < |s| {
      ghost var from := i;
      while |s| - i >= 16
        invariant from <= i <= |s| && Right(a, b, s, i, c, d, i - from)
        decreases |s| - i
      {
        c, d := Take(c, d, s, i, 16, a, b, i - from);
        i := i + 16;
      }
      c, d := Take(c, d, s, i, |s| - i, a, b, i - from);
      RightReduced(a, b, s, |s|, c, d, |s| - from);
      c, d := c % base, d % base;
    }
    RightDone(start as nat, s, c, d);
    r := c + 0x1_0000 * d;
  }

  // ----- two parts --------------------------------------------------------------------------------------------------

  /** One sum or-ed with the other sixteen bits up; the first may have run over by a bit, but by no more. */
  function Joined(a: nat, b: nat): nat
    requires a < 0x2_0000
  {
    a % 0x1_0000 + 0x1_0000 * (if a >= 0x1_0000 && b % 2 == 0 then b + 1 else b)
  }

  /** The second sum of the whole before it is reduced. */
  function Crossed(adler1: nat, adler2: nat, len2: nat): (r: nat)
    ensures r >= BASE - len2 % BASE
  {
    len2 % BASE * Lower(adler1) % BASE + Upper(adler1) + Upper(adler2) + BASE - len2 % BASE
  }

  /** The checksum of the whole, from those of the parts and the length of the second. */
  function Combined(adler1: nat, adler2: nat, len2: nat): nat {
    Pair(Lower(adler1) + Lower(adler2) + BASE - 1, Crossed(adler1, adler2, len2))
  }

  /** Neither sum is more than the subtractions take off. */
  predicate Joinable(adler1: nat, adler2: nat, len2: nat) {
    Lower(adler1) + Lower(adler2) <= 2 * BASE && Crossed(adler1, adler2, len2) < 4 * BASE
  }

  /** Both sums are remainders, as they are in every checksum. */
  predicate Reduced(adler: nat) {
    Lower(adler) < BASE && Upper(adler) < BASE
  }

  /** Both sums of the whole, before anything is taken off. */
  method Sums(adler1: uint32, adler2: uint32, len2: nat) returns (sum1: uint32, sum2: uint32)
    ensures sum1 as nat == Lower(adler1 as nat) + Lower(adler2 as nat) + BASE - 1 < 4 * BASE
    ensures sum2 as nat == Crossed(adler1 as nat, adler2 as nat, len2) < 5 * BASE
  {
    var base := BASE as uint32;
    var rem := (len2 % BASE) as uint32;
    sum1 := adler1 % 0x1_0000;
    CrossFits(rem as nat, sum1 as nat);
    sum2 := rem * sum1;
    sum2 := sum2 % base;
    sum1 := sum1 + adler2 % 0x1_0000 + base - 1;
    sum2 := sum2 + (adler1 / 0x1_0000 + adler2 / 0x1_0000 + base - rem);
  }

  lemma CombinedIs(adler1: nat, adler2: nat, len2: nat)
    ensures 0 <= Lower(adler1) + Lower(adler2) + BASE - 1 && BASE == 65521
    ensures Combined(adler1, adler2, len2) ==
            Pair(Lower(adler1) + Lower(adler2) + BASE - 1, Crossed(adler1, adler2, len2))
  {
    hide Pair, Crossed;
  }

  method Combine(adler1: uint32, adler2: uint32, len2: int) returns (r: nat)
    ensures len2 < 0 ==> r == 0xffff_ffff
    ensures len2 >= 0 ==> (r == Combined(adler1 as nat, adler2 as nat, len2) <==>
                           Joinable(adler1 as nat, adler2 as nat, len2))
    ensures forall adler, s, t | |t| == len2 && adler1 as nat == Adler(adler, s) && adler2 as nat == Adler(1, t) ::
              r == Adler(adler, s + t)
  {
    if len2 < 0 { return 0xffff_ffff; }
    hide Adler, Pair, Joined, Crossed, Lower, Upper;
    CombinedIs(adler1 as nat, adler2 as nat, len2);
    var base := BASE as uint32;
    var sum1, sum2 := Sums(adler1, adler2, len2);
    ghost var x, y := sum1 as nat, sum2 as nat;
    if sum1 >= base { sum1 := sum1 - base; }
    if sum1 >= base { sum1 := sum1 - base; }
    if sum2 >= 2 * base { sum2 := sum2 - 2 * base; }
    if sum2 >= base { sum2 := sum2 - base; }
    r := Joined(sum1 as nat, sum2 as nat);
    JoinedIs(x, y, sum1 as nat, sum2 as nat);
    forall adler, s, t | |t| == len2 && adler1 as nat == Adler(adler, s) && adler2 as nat == Adler(1, t)
      ensures r == Adler(adler, s + t)
    {
      CombinesParts(adler, s, t);
    }
  }

  lemma CrossFits(rem: nat, sum1: nat)
    requires rem < BASE && sum1 < 0x1_0000
    ensures rem * sum1 < 0x1_0000_0000
  {
    Products(rem, 65520, sum1);
    Products(sum1, 65535, 65520);
  }

  lemma Products(m: nat, n: nat, k: nat)
    requires m <= n
    ensures m * k <= n * k && m * k == k * m
  {
  }

  lemma JoinedIs(x: nat, y: nat, a: nat, b: nat)
    requires x < 4 * BASE && y < 5 * BASE
    requires a == if x >= 2 * BASE then x - 2 * BASE else if x >= BASE then x - BASE else x
    requires var z := if y >= 2 * BASE then y - 2 * BASE else y; b == if z >= BASE then z - BASE else z
    ensures a < 0x2_0000
    ensures Joined(a, b) == Pair(x, y) <==> x < 3 * BASE && y < 4 * BASE
  {
    var p, q := x % BASE, y % BASE;
    if x < 3 * BASE { assert a == p; } else { assert a == p + BASE; }
    if y < 4 * BASE { assert b == q; } else { assert b == q + BASE; }
    assert Joined(a, b) % 0x1_0000 == a % 0x1_0000;
  }

  /** Sums of all ones, which are not remainders, are too much for the subtractions. */
  lemma NotJoinable()
    ensures !Joinable(0xffff, 0xffff, 0) && !Reduced(0xffff)
  {
  }

  lemma ReducedJoin(adler1: nat, adler2: nat, len2: nat)
    requires Reduced(adler1) && Reduced(adler2)
    ensures Joinable(adler1, adler2, len2)
  {
  }

  /** For checksums of two parts the condition holds, and what comes out is the checksum of the whole. */
  lemma CombinesParts(adler: nat, s: seq<byte>, t: seq<byte>)
    ensures Joinable(Adler(adler, s), Adler(1, t), |t|)
    ensures Combined(Adler(adler, s), Adler(1, t), |t|) == Adler(adler, s + t)
  {
    var a, b := Lower(adler), Upper(adler);
    hide First, Second;
    PairParts(First(a, s), Second(a, b, s));
    PairParts(First(1, t), Second(1, 0, t));
    FirstJoins(a, s, t);
    SecondJoins(a, b, s, t);
    SumsMeet(First(a, s), Second(a, b, s), First(1, t), Second(1, 0, t), |t|,
             First(a, s + t), Second(a, b, s + t));
  }

  /** A message may be fed in pieces. */
  lemma AdlerContinues(adler: nat, s: seq<byte>, t: seq<byte>)
    ensures Adler(Adler(adler, s), t) == Adler(adler, s + t)
  {
    var a, b := Lower(adler), Upper(adler);
    var p, q := First(a, s), Second(a, b, s);
    hide First, Second;
    PairParts(p, q);
    FirstJoins(a, s, t);
    SecondJoins(a, b, s, t);
    Alone(p % BASE, q % BASE, t);
    Carried(p, First(1, t), First(p % BASE, t), First(a, s + t));
    var n: int := |t|;
    assert Same(q % BASE + n * (p % BASE) + Second(1, 0, t) + -n, q + n * p + Second(1, 0, t) + -n) by {
      hide Same;
      SameRest(q);
      SameTimesRest(n, p);
      SameSelf(Second(1, 0, t));
      SameSelf(-n);
      SameSum(q % BASE, q, n * (p % BASE), n * p);
      SameSum(q % BASE + n * (p % BASE), q + n * p, Second(1, 0, t), Second(1, 0, t));
      SameSum(q % BASE + n * (p % BASE) + Second(1, 0, t), q + n * p + Second(1, 0, t), -n, -n);
    }
  }

  lemma PairParts(a: nat, b: nat)
    ensures Lower(Pair(a, b)) == a % BASE && Upper(Pair(a, b)) == b % BASE
  {
  }

  ghost predicate Same(x: int, y: int) {
    x % BASE == y % BASE
  }

  lemma SameRest(x: int)
    ensures Same(x % BASE, x)
  {
  }

  lemma SameSelf(x: int)
    ensures Same(x, x)
  {
  }

  lemma SameTimesRest(m: nat, n: nat)
    ensures Same(m * (n % BASE), m * n)
  {
    ModTimes(m, n);
    ModTimes(m, n % BASE);
    ModOnce(n);
  }

  lemma Alone(a: nat, b: nat, t: seq<byte>)
    ensures First(a, t) + 1 == a + First(1, t) && Second(a, b, t) + |t| == b + |t| * a + Second(1, 0, t)
  {
    FirstJoins(a, [], t);
    SecondJoins(a, b, [], t);
    assert [] + t == t;
  }

  lemma Carried(p: nat, c: nat, e: nat, f: nat)
    requires e + 1 == p % BASE + c && f + 1 == p + c
    ensures e % BASE == f % BASE
  {
    ModOnce(p);
    ModAdds(p % BASE, p, c - 1, c - 1);
  }

  lemma SameSum(x: int, y: int, d: int, e: int)
    requires Same(x, y) && Same(d, e)
    ensures Same(x + d, y + e)
  {
    ModAdds(x, y, d, e);
  }

  /** The base that is added keeps the sums from going below nothing, and is nothing to the remainder. */
  lemma SameMinus(n: int)
    ensures Same(BASE - n % BASE, -n) && Same(BASE - 1, -1)
  {
    assert n == BASE * (n / BASE) + n % BASE;
    ModMoves(-n, n / BASE + 1);
  }

  lemma SameTimes(m: nat, n: nat)
    ensures Same(m % BASE * (n % BASE) % BASE, m * n)
  {
    ModTimes(m, n);
    ModOnce(m * n);
  }

  /** The parts' sums a, b and c, d, and the whole's e, f. */
  lemma SumsMeet(a: nat, b: nat, c: nat, d: nat, n: nat, e: nat, f: nat)
    requires e + 1 == a + c && f + n == b + n * a + d
    ensures (a % BASE + c % BASE + BASE - 1) % BASE == e % BASE
    ensures (n % BASE * (a % BASE) % BASE + b % BASE + d % BASE + BASE - n % BASE) % BASE == f % BASE
  {
    FirstSums(a, c, e);
    SecondSums(n % BASE * (a % BASE) % BASE, n * a, b, d, n, f) by { SameTimes(n, a); }
  }

  lemma FirstSums(a: int, c: int, e: int)
    requires e + 1 == a + c
    ensures (a % BASE + c % BASE + BASE - 1) % BASE == e % BASE
  {
    var p, q := a % BASE, c % BASE;
    assert Same(p + q + (BASE - 1), a + c + -1) by {
      hide Same;
      SameRest(a);
      SameRest(c);
      SameSum(p, a, q, c);
      SameMinus(0);
      SameSum(p + q, a + c, BASE - 1, -1);
    }
  }

  lemma SecondSums(m: int, k: int, b: int, d: int, n: int, f: int)
    requires Same(m, k) && f + n == b + k + d
    ensures (m + b % BASE + d % BASE + BASE - n % BASE) % BASE == f % BASE
  {
    var p, q := b % BASE, d % BASE;
    assert Same(m + p + q + (BASE - n % BASE), k + b + d + -n) by {
      hide Same;
      SameRest(b);
      SameRest(d);
      SameSum(m, k, p, b);
      SameSum(m + p, k + b, q, d);
      SameMinus(n);
      SameSum(m + p + q, k + b + d, BASE - n % BASE, -n);
    }
  }
}
