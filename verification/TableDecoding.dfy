/**
 The two-level decoding tables of inflate and what looking a stream up in them gives (dep/zlib/inftrees.c:106-303;
 the lookup at dep/zlib/inflate.c:1074-1091, 1126-1143).
 */
module TableDecoding {
  import opened Counting
  import opened FlateCode
  import opened Powers

  datatype CodeType = Codes | Lens | Dists

  datatype Entry = Entry(op: int, bits: int, val: int)

  const LBASE: seq<int> := [3, 4, 5, 6, 7, 8, 9, 10, 11, 13, 15, 17, 19, 23, 27, 31, 35, 43, 51, 59, 67, 83, 99, 115,
      131, 163, 195, 227, 258, 0, 0]
  const LEXT: seq<int> := [16, 16, 16, 16, 16, 16, 16, 16, 17, 17, 17, 17, 18, 18, 18, 18, 19, 19, 19, 19, 20, 20, 20,
      20, 21, 21, 21, 21, 16, 194, 65]
  const DBASE: seq<int> := [1, 2, 3, 4, 5, 7, 9, 13, 17, 25, 33, 49, 65, 97, 129, 193, 257, 385, 513, 769, 1025, 1537,
      2049, 3073, 4097, 6145, 8193, 12289, 16385, 24577, 0, 0]
  const DEXT: seq<int> := [16, 16, 16, 16, 17, 17, 18, 18, 19, 19, 20, 20, 21, 21, 22, 22, 23, 23, 24, 24, 25, 25, 26,
      26, 27, 27, 28, 28, 29, 29, 64, 64]

  /** Symbols from here on stand for base values with extra bits, those more than one below for themselves. */
  function MatchFrom(t: CodeType): int {
    match t
    case Codes => 20
    case Lens => 257
    case Dists => 0
  }

  /** How many symbols there may be. */
  function SymbolLimit(t: CodeType): int {
    match t
    case Codes => 19
    case Lens => 288
    case Dists => 32
  }

  /** The entry for a symbol whose code has this many bits to drop. */
  function Leaf(t: CodeType, sym: int, bits: int): Entry
    requires 0 <= sym < SymbolLimit(t)
  {
    if sym + 1 < MatchFrom(t) then Entry(0, bits, sym)
    else if sym >= MatchFrom(t) then
      if t.Dists? then Entry(DEXT[sym], bits, DBASE[sym]) else Entry(LEXT[sym - 257], bits, LBASE[sym - 257])
    else Entry(96, bits, 0)
  }

  predicate IsLink(e: Entry) {
    0 < e.op < 16
  }

  lemma LeafNotLink(t: CodeType, sym: int, bits: int)
    requires 0 <= sym < SymbolLimit(t)
    ensures !IsLink(Leaf(t, sym, bits)) && Leaf(t, sym, bits).bits == bits
  {
    assert forall i {:trigger LEXT[i]} :: 0 <= i < 31 ==> LEXT[i] >= 16;
    assert forall i {:trigger DEXT[i]} :: 0 <= i < 32 ==> DEXT[i] >= 16;
  }

  /** Entries base to base + 2^cur - 1 whose place ends in the l bits of v all hold e. */
  ghost predicate Block(table: seq<Entry>, base: int, cur: nat, v: int, l: nat, e: Entry) {
    && 0 <= base && base + Pow2(cur) <= |table|
    && forall a {:trigger table[a]} :: base <= a < base + Pow2(cur) && (a - base) % Pow2(l) == v ==> table[a] == e
  }

  /** Present symbols have codes. */
  ghost predicate Present(lens: seq<int>, s: int) {
    0 <= s < |lens| && 1 <= lens[s] <= MAX_BITS && 0 <= Code(lens, s)
  }

  /** The code of s as it is read. */
  ghost function Value(lens: seq<int>, s: int): nat
    requires Present(lens, s)
  {
    Rev(Code(lens, s), lens[s])
  }

  /** The table leads from every stream that starts with the code of s to the entry for s. */
  ghost predicate Found(table: seq<Entry>, root: nat, lens: seq<int>, t: CodeType, s: int) {
    Present(lens, s) && s < SymbolLimit(t) && Pow2(root) <= |table| &&
    if lens[s] <= root then Block(table, 0, root, Value(lens, s), lens[s], Leaf(t, s, lens[s]))
    else FoundBelow(table, root, lens, t, s)
  }

  ghost predicate FoundBelow(table: seq<Entry>, root: nat, lens: seq<int>, t: CodeType, s: int)
    requires Present(lens, s) && 0 <= s < SymbolLimit(t) && root < lens[s] && Pow2(root) <= |table|
  {
    var v := Value(lens, s);
    var lk := table[v % Pow2(root)];
    IsLink(lk) && lk.bits == root && lens[s] - root <= lk.op
      && Block(table, lk.val, lk.op, v / Pow2(root), lens[s] - root, Leaf(t, s, lens[s] - root))
  }

  /** One lookup: the entry found and how many bits of the stream it takes. */
  ghost function Lookup(table: seq<Entry>, root: nat, h: nat): (Entry, int)
    requires Pow2(root) <= |table|
    requires var here := table[h % Pow2(root)]; IsLink(here) ==>
      here.bits == root && 0 <= here.val && here.val + Pow2(here.op) <= |table|
  {
    var here := table[h % Pow2(root)];
    if IsLink(here) then
      var e := table[here.val + h / Pow2(root) % Pow2(here.op)];
      (e, here.bits + e.bits)
    else (here, here.bits)
  }

  // ----- remainders --------------------------------------------------------------------------------------------------

  /** Taking root bits off a remainder. */
  lemma DropRoot(h: nat, root: nat, k: nat)
    ensures h % Pow2(root + k) / Pow2(root) == h / Pow2(root) % Pow2(k)
  {
    Pow2Sum(root, k);
    DropFactor(h, Pow2(root), Pow2(k), Pow2(root + k));
  }

  lemma DropFactor(h: nat, p: nat, q: nat, m: nat)
    requires p > 0 && q > 0 && m == p * q
    ensures h % m / p == h / p % q
  {
    var a, b, c := h / p / q, h / p % q, h % p;
    DivMod(h / p, q);
    DivMod(h, p);
    Regrouped(h, p, q, a, b, c);
    Bounded(b, p, q, c);
    DivIs(h, m, a, b * p + c);
    DivIs(b * p + c, p, b, c);
  }

  lemma Regrouped(h: nat, p: nat, q: nat, a: nat, b: nat, c: nat)
    requires h == (a * q + b) * p + c
    ensures h == a * (p * q) + (b * p + c)
  {
    Distribute(a * q, b, p);
    Shuffle(a, p, q);
  }

  lemma Bounded(b: nat, p: nat, q: nat, c: nat)
    requires b < q && c < p
    ensures b * p + c < p * q
  {
    Distribute(b, 1, p);
    Grows(b + 1, q, p);
  }

  lemma Grows(a: nat, b: nat, p: nat)
    requires a <= b
    ensures a * p <= p * b
  {
  }

  /** A stream starts with a long code just if its first root bits and what follows do. */
  lemma TwoLevels(h: nat, v: nat, root: nat, k: nat)
    requires v < Pow2(root + k)
    ensures h % Pow2(root + k) == v <==> h % Pow2(root) == v % Pow2(root) && h / Pow2(root) % Pow2(k) == v / Pow2(root)
  {
    hide Pow2;
    ModMod(h, root, root + k);
    DropRoot(h, root, k);
    DivMod(h % Pow2(root + k), Pow2(root));
    DivMod(v, Pow2(root));
  }

  // ----- looking up --------------------------------------------------------------------------------------------------

  lemma BlockAt(table: seq<Entry>, base: int, cur: nat, v: int, l: nat, e: Entry, x: nat)
    requires Block(table, base, cur, v, l, e) && x % Pow2(l) == v && l <= cur
    ensures 0 <= base && base + Pow2(cur) <= |table| && table[base + x % Pow2(cur)] == e
  {
    hide Pow2;
    ModMod(x, l, cur);
    var a := base + x % Pow2(cur);
    assert (a - base) % Pow2(l) == v;
    assert table[a] == e;
  }

  lemma LooksUpShort(table: seq<Entry>, root: nat, lens: seq<int>, t: CodeType, s: int, h: nat)
    requires Found(table, root, lens, t, s) && Starts(h, lens, s) && lens[s] <= root
    ensures s < SymbolLimit(t) && Pow2(root) <= |table| && table[h % Pow2(root)] == Leaf(t, s, lens[s])
  {
    hide Leaf, Code, Rev, Pow2, Block;
    BlockAt(table, 0, root, Value(lens, s), lens[s], Leaf(t, s, lens[s]), h);
  }

  lemma LooksUpLong(table: seq<Entry>, root: nat, lens: seq<int>, t: CodeType, s: int, h: nat)
    requires Found(table, root, lens, t, s) && Starts(h, lens, s) && lens[s] > root
    ensures s < SymbolLimit(t) && Pow2(root) <= |table|
    ensures var lk := table[h % Pow2(root)];
      IsLink(lk) && lk.bits == root && 0 <= lk.val && lk.val + Pow2(lk.op) <= |table|
        && table[lk.val + h / Pow2(root) % Pow2(lk.op)] == Leaf(t, s, lens[s] - root)
  {
    hide Leaf, Code, Rev, Pow2, Block;
    var v: nat, k: nat := Value(lens, s), lens[s] - root;
    TwoLevels(h, v, root, k);
    var lk := table[h % Pow2(root)];
    assert lk == table[v % Pow2(root)];
    BlockAt(table, lk.val, lk.op, v / Pow2(root), k, Leaf(t, s, k), h / Pow2(root));
  }

  /** A stream that starts with the code of s leads to the entry of s, and uses up exactly the code. */
  lemma LooksUp(table: seq<Entry>, root: nat, lens: seq<int>, t: CodeType, s: int, h: nat)
    requires Found(table, root, lens, t, s) && Starts(h, lens, s)
    ensures 0 <= s < |lens| && s < SymbolLimit(t) && Pow2(root) <= |table|
    ensures var here := table[h % Pow2(root)]; IsLink(here) ==>
      here.bits == root && 0 <= here.val && here.val + Pow2(here.op) <= |table|
    ensures Lookup(table, root, h).0 == Leaf(t, s, if lens[s] <= root then lens[s] else lens[s] - root)
      && Lookup(table, root, h).1 == lens[s]
  {
    hide Leaf, Code, Rev, Pow2, Block, FoundBelow;
    if lens[s] <= root {
      LeafNotLink(t, s, lens[s]);
      LooksUpShort(table, root, lens, t, s, h);
    } else {
      LeafNotLink(t, s, lens[s] - root);
      LooksUpLong(table, root, lens, t, s, h);
    }
  }
}
