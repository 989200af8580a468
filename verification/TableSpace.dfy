/**
 How much space inflate_table takes: the root table, and for each prefix of longer codes a table just large enough
 for the longest of them (dep/zlib/inftrees.c:196-288).
 */
module TableSpace {
  import opened Counting
  import opened FlateCode
  import opened Powers
  import opened TableBuilding
  import opened TableDecoding

  /** The code of s goes on past the root table. */
  ghost predicate Long(lens: seq<int>, root: nat, s: int) {
    Present(lens, s) && root < lens[s]
  }

  /** The longest code that begins with P, among the first n symbols; 0 if none is longer than root. */
  ghost function LongestWith(lens: seq<int>, root: nat, P: nat, n: nat): (l: nat)
    requires n <= |lens|
    ensures l == 0 || root < l <= MAX_BITS
  {
    if n == 0 then 0
    else
      var l := LongestWith(lens, root, P, n - 1);
      if Long(lens, root, n - 1) && Prefix(lens, root, n - 1) == P && l < lens[n - 1] then lens[n - 1] else l
  }

  /** The entries of the table for prefix P. */
  ghost function Size(lens: seq<int>, root: nat, P: nat): nat {
    var l := LongestWith(lens, root, P, |lens|);
    if l == 0 then 0 else Pow2(l - root)
  }

  /** The entries of the root table and of the tables for the first n prefixes. */
  ghost function Needed(lens: seq<int>, root: nat, n: nat): nat {
    if n == 0 then Pow2(root) else Needed(lens, root, n - 1) + Size(lens, root, n - 1)
  }

  lemma {:induction false} LongestIs(lens: seq<int>, root: nat, P: nat, n: nat, u: int, l: int)
    requires n <= |lens| && 0 <= u < n && Long(lens, root, u) && Prefix(lens, root, u) == P && lens[u] == l
    requires forall v {:trigger Long(lens, root, v)} ::
      0 <= v < |lens| && Long(lens, root, v) && Prefix(lens, root, v) == P ==>
      lens[v] <= l
    ensures LongestWith(lens, root, P, n) == l
    decreases n
  {
    hide Prefix;
    LongestBound(lens, root, P, n - 1, l);
    if u < n - 1 { LongestIs(lens, root, P, n - 1, u, l); }
  }

  lemma {:induction false} LongestBound(lens: seq<int>, root: nat, P: nat, n: nat, l: int)
    requires n <= |lens| && 0 <= l
    requires forall v {:trigger Long(lens, root, v)} ::
      0 <= v < |lens| && Long(lens, root, v) && Prefix(lens, root, v) == P ==>
      lens[v] <= l
    ensures LongestWith(lens, root, P, n) <= l
    decreases n
  {
    hide Long, Prefix;
    if n > 0 { LongestBound(lens, root, P, n - 1, l); }
  }

  lemma {:induction false} LongestNone(lens: seq<int>, root: nat, P: nat, n: nat)
    requires n <= |lens|
    requires forall v {:trigger Long(lens, root, v)} :: 0 <= v < |lens| && Long(lens, root, v) ==>
      Prefix(lens, root, v) != P
    ensures LongestWith(lens, root, P, n) == 0
    decreases n
  {
    hide Long, Prefix;
    if n > 0 { LongestNone(lens, root, P, n - 1); }
  }

  lemma {:induction false} NeededSkips(lens: seq<int>, root: nat, a: nat, b: nat)
    requires a <= b && forall q {:trigger Size(lens, root, q)} :: a <= q < b ==> Size(lens, root, q) == 0
    ensures Needed(lens, root, b) == Needed(lens, root, a)
    decreases b
  {
    hide Size, Pow2;
    if a < b { NeededSkips(lens, root, a, b - 1); }
  }

  lemma {:induction false} NeededGrows(lens: seq<int>, root: nat, a: nat, b: nat)
    requires a <= b
    ensures Pow2(root) <= Needed(lens, root, a) <= Needed(lens, root, b)
    decreases b
  {
    hide Size, Pow2;
    if a < b { NeededGrows(lens, root, a, b - 1); } else if b > 0 { NeededGrows(lens, root, a - 1, b - 1); }
  }

  // ----- a table is filled to its end -----------------------------------------------------------------------------

  lemma ShrOnes(p: nat, n: nat)
    ensures (p + 1) * Pow2(n) >= 1 && Shr((p + 1) * Pow2(n) - 1, n) == p
  {
    hide Shr, Pow2;
    var c := (p + 1) * Pow2(n) - 1;
    Distribute(p, 1, Pow2(n));
    assert c >= p * Pow2(n) >= 0;
    ShrCompare(c, p, n);
    ShrCompare(c, p + 1, n);
  }

  lemma ScaleUp(a: int, j: nat, k: nat)
    ensures a * Pow2(j + k) == (a * Pow2(j)) * Pow2(k)
  {
    hide Pow2;
    Pow2Sum(j, k);
    Associates(a, Pow2(j), Pow2(k));
  }

  lemma Associates(a: int, b: int, c: int)
    ensures a * (b * c) == (a * b) * c
  {
  }

  lemma OnesFit(p: nat, root: nat, n: nat)
    requires p < Pow2(root)
    ensures 1 <= (p + 1) * Pow2(n) <= Pow2(root + n)
  {
    hide Pow2;
    Pow2Sum(root, n);
    Distribute(p, 1, Pow2(n));
    if p + 1 < Pow2(root) { Larger(Pow2(root), p + 1, Pow2(n)); }
  }

  /** The symbol whose code begins the string that is P and then all ones. */
  lemma LastUnder(lens: seq<int>, t: CodeType, root: nat, P: nat, c: nat) returns (u: int)
    requires Fits(lens, t) && Used(CountsOf(lens), MAX_BITS) == Pow2(MAX_BITS) && c < Pow2(MAX_BITS)
    ensures Present(lens, u) && lens[u] <= MAX_BITS && Code(lens, u) == Shr(c, MAX_BITS - lens[u])
  {
    hide Code, Used, Rev, Shr, Pow2;
    u := EveryStream(lens, Rev(c, MAX_BITS));
    var l := lens[u];
    RevPrefix(c, l, MAX_BITS - l);
    ShrFits(c, l, MAX_BITS - l);
    IsPresent(lens, u);
    CodeFits(lens, t, u);
    RevInjective(Code(lens, u), Shr(c, MAX_BITS - l), l);
  }

  /** Codes of at most m bits do not use up all that begins with P. */
  lemma NotShort(lens: seq<int>, t: CodeType, root: nat, P: nat, m: nat, c: nat, u: int)
    requires Fits(lens, t) && Present(lens, u) && root <= m < MAX_BITS
    requires (P + 1) * Pow2(m - root) > Used(CountsOf(lens), m) && c + 1 == (P + 1) * Pow2(MAX_BITS - root)
    requires Code(lens, u) == Shr(c, MAX_BITS - lens[u])
    ensures lens[u] > m
  {
    hide *;
    CodeUsed(lens, u);
    var l, cnt := lens[u], CountsOf(lens);
    if l <= m {
      var used := Used(cnt, l);
      ShrCompare(c, used, MAX_BITS - l);
      UsedGrows(cnt, l, m);
      StillAbove(P + 1, used, m - root, m - l, MAX_BITS - m, MAX_BITS - root, MAX_BITS - l);
    }
  }

  lemma StillAbove(p: int, q: int, j: nat, i: nat, k: nat, j': nat, i': nat)
    requires p * Pow2(j) > q * Pow2(i) && j' == j + k && i' == i + k
    ensures p * Pow2(j') > q * Pow2(i')
  {
    hide *;
    Above(p * Pow2(j), q * Pow2(i), Pow2(k));
    ScaleUp(p, j, k);
    ScaleUp(q, i, k);
  }

  lemma CodeUsed(lens: seq<int>, u: int)
    requires Present(lens, u)
    ensures 0 <= u < |lens| && |CountsOf(lens)| == MAX_BITS + 1 == 16 && 1 <= lens[u] <= MAX_BITS
    ensures forall b {:trigger CountsOf(lens)[b]} :: 1 <= b <= MAX_BITS ==> CountsOf(lens)[b] >= 0
    ensures 0 <= Code(lens, u) < Used(CountsOf(lens), lens[u])
    ensures Code(lens, u) >= 2 * Used(CountsOf(lens), lens[u] - 1) >= 0
  {
    CountsPositive(lens);
    CodeInRange(lens, u);
    UsedNonNegative(CountsOf(lens), lens[u] - 1);
    hide Used, Code, CountsOf, Pow2;
    assert FirstCode(CountsOf(lens), lens[u]) == 2 * Used(CountsOf(lens), lens[u] - 1);
  }

  lemma CountsPositive(lens: seq<int>)
    ensures |CountsOf(lens)| == MAX_BITS + 1
    ensures forall b {:trigger CountsOf(lens)[b]} :: 1 <= b <= MAX_BITS ==> CountsOf(lens)[b] >= 0
  {
    hide Count;
  }

  lemma Above(a: int, b: int, c: int)
    requires a > b && c > 0
    ensures a * c > b * c
  {
  }

  /** So some code that begins with P is at least one bit longer. */
  lemma Reaches(lens: seq<int>, t: CodeType, root: nat, P: nat, m: nat) returns (u: int)
    requires Fits(lens, t) && Used(CountsOf(lens), MAX_BITS) == Pow2(MAX_BITS)
    requires root <= m < MAX_BITS && P < Pow2(root) && (P + 1) * Pow2(m - root) > Used(CountsOf(lens), m)
    ensures Long(lens, root, u) && Prefix(lens, root, u) == P && m < lens[u]
  {
    hide Code, Used, Shr, Pow2;
    var n := MAX_BITS - root;
    ShrOnes(P, n);
    OnesFit(P, root, n);
    var c := (P + 1) * Pow2(n) - 1;
    u := LastUnder(lens, t, root, P, c);
    NotShort(lens, t, root, P, m, c, u);
    ShrShr(c, MAX_BITS - lens[u], lens[u] - root);
  }

  lemma SizeOf(lens: seq<int>, root: nat, P: nat, curr: nat)
    requires LongestWith(lens, root, P, |lens|) == root + curr && curr > 0
    ensures Size(lens, root, P) == Pow2(curr)
  {
    hide LongestWith, Pow2;
  }

  /** The table of curr bits that the codes beginning with P fit is no larger than they need. */
  lemma SizeIs(lens: seq<int>, t: CodeType, root: nat, s: int, curr: nat)
    requires Fits(lens, t) && Used(CountsOf(lens), MAX_BITS) == Pow2(MAX_BITS) && Long(lens, root, s)
    requires lens[s] <= root + curr <= MAX_BITS && forall u {:trigger Long(lens, root, u)} ::
      0 <= u < |lens| && Long(lens, root, u) && Prefix(lens, root, u) == Prefix(lens, root, s) ==>
        lens[u] <= root + curr
    requires curr == lens[s] - root
      || (Prefix(lens, root, s) + 1) * Pow2(curr - 1) > Used(CountsOf(lens), root + curr - 1)
    ensures Size(lens, root, Prefix(lens, root, s)) == Pow2(curr)
  {
    hide *;
    LongIs(lens, root, s);
    var P, u := Prefix(lens, root, s), s;
    PrefixFits(lens, t, root, s);
    if curr != lens[s] - root {
      u := Reaches(lens, t, root, P, root + curr - 1);
      LongIs(lens, root, u);
    }
    LongestIs(lens, root, P, |lens|, u, root + curr);
    SizeOf(lens, root, P, curr);
  }

  // ----- no table is left out ---------------------------------------------------------------------------------------

  lemma SymbolIs(lens: seq<int>, len: int, r: int, s: int)
    requires NextSymbol(lens, len, r, s)
    ensures 0 <= s < |lens| && lens[s] == len && MAX_BITS == 15
  {
  }

  lemma LongIs(lens: seq<int>, root: nat, s: int)
    requires Long(lens, root, s)
    ensures Present(lens, s) && 0 <= s < |lens| && 1 <= lens[s] <= MAX_BITS && root < lens[s] && 0 <= Code(lens, s)
    ensures Prefix(lens, root, s) == Shr(Code(lens, s), lens[s] - root)
  {
    hide Code, Shr;
  }

  /** What has not been entered when s is next is longer, or as long and of no smaller code. */
  lemma NotEarlier(lens: seq<int>, len: int, r: int, s: int, u: int)
    requires NextSymbol(lens, len, r, s) && Present(lens, u) && Present(lens, s) && !Before(lens, len, r, u)
    ensures lens[u] >= len && (lens[u] == len ==> Code(lens, s) <= Code(lens, u))
  {
    hide Count;
  }

  /** A longer code cut to the length of a shorter one lies past it. */
  lemma LongerPast(lens: seq<int>, s: int, u: int)
    requires Present(lens, s) && Present(lens, u) && lens[s] < lens[u]
    ensures 0 <= Code(lens, s) < Shr(Code(lens, u), lens[u] - lens[s])
  {
    hide *;
    CodeUsed(lens, s);
    CodeUsed(lens, u);
    var used, cnt, k, d := Used(CountsOf(lens), lens[s]), CountsOf(lens), lens[u] - lens[s], Code(lens, u);
    UsedGrows(cnt, lens[s], lens[u] - 1);
    ScaleUp(used, k - 1, 1);
    OnePower();
    ShrCompare(d, used, k);
  }

  /** A symbol that comes after s has no smaller prefix. */
  lemma Later(lens: seq<int>, t: CodeType, root: nat, len: int, r: int, s: int, u: int)
    requires Fits(lens, t) && NextSymbol(lens, len, r, s) && Long(lens, root, s) && Long(lens, root, u)
      && !Before(lens, len, r, u)
    ensures Prefix(lens, root, s) <= Prefix(lens, root, u)
  {
    hide *;
    SymbolIs(lens, len, r, s);
    LongIs(lens, root, s);
    LongIs(lens, root, u);
    var c, d, k := Code(lens, s), Code(lens, u), lens[u] - len;
    NotEarlier(lens, len, r, s, u);
    if k == 0 {
      ShrGrows(c, d, len - root);
    } else {
      LongerPast(lens, s, u);
      ShrGrows(c, Shr(d, k), len - root);
      ShrShr(d, k, len - root);
    }
  }

  lemma OnePower()
    ensures Pow2(1) == 2
  {
  }

  lemma ShrGrows(c: nat, d: nat, k: nat)
    requires c <= d
    ensures Shr(c, k) <= Shr(d, k)
  {
    hide *;
    ShrCompare(c, Shr(c, k), k);
    ShrCompare(d, Shr(c, k), k);
  }

  /** Between the table being filled and the one to open next there is none. */
  lemma NoneBetween(table: seq<Entry>, root: nat, lens: seq<int>, t: CodeType, len: int, r: int, next: int, curr: nat,
                    sub: bool, P: nat, s: int)
    requires Built(table, root, lens, t, len, r, next, curr, sub, P) && NextSymbol(lens, len, r, s)
      && Long(lens, root, s)
    requires sub ==> P < Prefix(lens, root, s)
    ensures Needed(lens, root, Prefix(lens, root, s)) == Needed(lens, root, if sub then P + 1 else 0)
  {
    var a, b := if sub then P + 1 else 0, Prefix(lens, root, s);
    forall q {:trigger Size(lens, root, q)} | a <= q < b ensures Size(lens, root, q) == 0 {
      forall v {:trigger Long(lens, root, v)} | 0 <= v < |lens| && Long(lens, root, v)
        ensures Prefix(lens, root, v) != q {
        if Before(lens, len, r, v) {
          PassedPrefix(table, root, lens, t, len, r, next, curr, sub, P, v);
        } else {
          Later(lens, t, root, len, r, s, v);
        }
      }
      hide Built, NextSymbol, Long, Prefix, Before;
      LongestNone(lens, root, q, |lens|);
    }
    hide Built, NextSymbol, Long, Prefix, Before, Size;
    NeededSkips(lens, root, a, b);
  }

  /** The longer symbols that are in have no larger prefix than the table being filled. */
  lemma PassedPrefix(table: seq<Entry>, root: nat, lens: seq<int>, t: CodeType, len: int, r: int, next: int, curr: nat,
                     sub: bool, P: nat, v: int)
    requires Built(table, root, lens, t, len, r, next, curr, sub, P) && Before(lens, len, r, v) && Long(lens, root, v)
    ensures sub && Prefix(lens, root, v) <= P
  {
    hide Found, Prefix, Pow2, Before;
  }

  /** When all symbols are in, all tables are counted. */
  lemma NoneAfter(table: seq<Entry>, root: nat, lens: seq<int>, t: CodeType, len: int, r: int, next: int, curr: nat,
                  sub: bool, P: nat)
    requires Built(table, root, lens, t, len, r, next, curr, sub, P)
    requires forall v {:trigger Before(lens, len, r, v)} :: 0 <= v < |lens| && lens[v] != 0 ==> Before(lens, len, r, v)
    ensures Needed(lens, root, Pow2(root)) == Needed(lens, root, if sub then P + 1 else 0)
  {
    var a: nat := if sub then P + 1 else 0;
    if sub { InSubParts(table, root, lens, t, len, r, next, curr, P); }
    hide Built;
    forall q {:trigger Size(lens, root, q)} | a <= q < Pow2(root) ensures Size(lens, root, q) == 0 {
      forall v {:trigger Long(lens, root, v)} | 0 <= v < |lens| && Long(lens, root, v)
        ensures Prefix(lens, root, v) != q {
        assert Before(lens, len, r, v);
        PassedPrefix(table, root, lens, t, len, r, next, curr, sub, P, v);
      }
      hide Long, Prefix, Before;
      LongestNone(lens, root, q, |lens|);
    }
    hide Long, Prefix, Before, Size, Pow2;
    NeededSkips(lens, root, a, Pow2(root));
  }
}
