/**
 What inflate_table keeps while it fills the tables: every symbol entered so far is found, and each new entry, table
 and link falls where none of them is (dep/zlib/inftrees.c:196-288).
 */
module TableBuilding {
  import opened Counting
  import opened FlateCode
  import opened Powers
  import opened TableDecoding

  /** Symbols are entered by length, and within a length in order: r of length len are in, and all shorter ones. */
  ghost predicate Before(lens: seq<int>, len: int, r: int, s: int) {
    0 <= s < |lens| && lens[s] != 0 && (lens[s] < len || (lens[s] == len && Count(lens[..s], len) < r))
  }

  /** A set of lengths that is not over-subscribed. */
  ghost predicate Fits(lens: seq<int>, t: CodeType) {
    Lengths(lens) && |lens| <= SymbolLimit(t) && Used(CountsOf(lens), MAX_BITS) <= Pow2(MAX_BITS)
  }

  /** The first root bits of a longer code. */
  ghost function Prefix(lens: seq<int>, root: nat, s: int): nat
    requires Present(lens, s) && root < lens[s]
  {
    Shr(Code(lens, s), lens[s] - root)
  }

  lemma IsPresent(lens: seq<int>, s: int)
    requires Lengths(lens) && 0 <= s < |lens| && lens[s] != 0
    ensures Present(lens, s)
  {
    CodeInRange(lens, s);
  }

  /** The place of its link. */
  lemma LinkPlace(lens: seq<int>, root: nat, s: int)
    requires Present(lens, s) && root < lens[s]
    ensures Value(lens, s) % Pow2(root) == Rev(Prefix(lens, root, s), root)
  {
    RevPrefix(Code(lens, s), root, lens[s] - root);
  }

  // ----- one write ---------------------------------------------------------------------------------------------------

  /** The replicated entries: those of base to base + 2^cur - 1 whose place ends in the l bits of v. */
  ghost predicate Filled(table: seq<Entry>, table': seq<Entry>, base: int, cur: nat, v: int, l: nat, e: Entry) {
    && |table'| == |table| && 0 <= base && base + Pow2(cur) <= |table|
    && forall a {:trigger table'[a]} :: 0 <= a < |table| ==>
         table'[a] == if base <= a < base + Pow2(cur) && (a - base) % Pow2(l) == v then e else table[a]
  }

  lemma FilledBlock(table: seq<Entry>, table': seq<Entry>, base: int, cur: nat, v: int, l: nat, e: Entry)
    requires Filled(table, table', base, cur, v, l, e)
    ensures Block(table', base, cur, v, l, e)
  {
  }

  /** A block elsewhere is left alone. */
  lemma BlockApart(table: seq<Entry>, table': seq<Entry>, base: int, cur: nat, v: int, l: nat, e: Entry, b: int, c: nat,
                   w: int, m: nat, f: Entry)
    requires Filled(table, table', base, cur, v, l, e) && Block(table, b, c, w, m, f)
      && (b + Pow2(c) <= base || base + Pow2(cur) <= b)
    ensures Block(table', b, c, w, m, f)
  {
    hide Pow2;
    forall a {:trigger table'[a]} | b <= a < b + Pow2(c) && (a - b) % Pow2(m) == w
      ensures table'[a] == f
    {
      assert table[a] == f;
    }
  }

  /** A block in the same table is left alone if no place ends in the bits of both. */
  lemma BlockBeside(table: seq<Entry>, table': seq<Entry>, base: int, cur: nat, v: int, l: nat, e: Entry, w: int,
                    m: nat, f: Entry)
    requires Filled(table, table', base, cur, v, l, e) && Block(table, base, cur, w, m, f)
    requires forall x: nat {:trigger x % Pow2(l)} :: x % Pow2(m) == w ==> x % Pow2(l) != v
    ensures Block(table', base, cur, w, m, f)
  {
    hide Pow2;
    forall a {:trigger table'[a]} | base <= a < base + Pow2(cur) && (a - base) % Pow2(m) == w ensures table'[a] == f {
      var x: nat := a - base;
      assert x % Pow2(l) != v;
      assert table[a] == f;
    }
  }

  /** Two symbols of at most root bits share no place in the root table. */
  lemma RootApart(lens: seq<int>, t: CodeType, s: int, u: int)
    requires Fits(lens, t) && Present(lens, s) && Present(lens, u) && s != u
    ensures forall x: nat {:trigger x % Pow2(lens[u])} :: x % Pow2(lens[s]) == Value(lens, s) ==>
      x % Pow2(lens[u]) != Value(lens, u)
  {
    forall x: nat {:trigger x % Pow2(lens[u])} | x % Pow2(lens[s]) == Value(lens, s)
      ensures x % Pow2(lens[u]) != Value(lens, u)
    {
      if x % Pow2(lens[u]) == Value(lens, u) { PrefixFree(lens, s, u, x); }
    }
  }

  /** Two longer symbols with the same first root bits share no place in their table. */
  lemma SubApart(lens: seq<int>, t: CodeType, root: nat, s: int, u: int)
    requires Fits(lens, t) && Present(lens, s) && Present(lens, u) && s != u && root < lens[s] && root < lens[u]
    requires Value(lens, s) % Pow2(root) == Value(lens, u) % Pow2(root)
    ensures forall x: nat {:trigger x % Pow2(lens[u] - root)} ::
      x % Pow2(lens[s] - root) == Value(lens, s) / Pow2(root) ==>
      x % Pow2(lens[u] - root) != Value(lens, u) / Pow2(root)
  {
    forall x: nat {:trigger x % Pow2(lens[u] - root)} | x % Pow2(lens[s] - root) == Value(lens, s) / Pow2(root)
      ensures x % Pow2(lens[u] - root) != Value(lens, u) / Pow2(root)
    {
      if x % Pow2(lens[u] - root) == Value(lens, u) / Pow2(root) { BothStart(lens, t, root, s, u, x); }
    }
  }

  lemma BothStart(lens: seq<int>, t: CodeType, root: nat, s: int, u: int, x: nat)
    requires Fits(lens, t) && Present(lens, s) && Present(lens, u) && root < lens[s] && root < lens[u]
    requires Value(lens, s) % Pow2(root) == Value(lens, u) % Pow2(root)
    requires x % Pow2(lens[s] - root) == Value(lens, s) / Pow2(root)
      && x % Pow2(lens[u] - root) == Value(lens, u) / Pow2(root)
    ensures s == u
  {
    hide *;
    var lo := Value(lens, s) % Pow2(root);
    var h := x * Pow2(root) + lo;
    DivIs(h, Pow2(root), x, lo);
    FitsParts(lens, t);
    StartsThere(lens, root, s, h, x);
    StartsThere(lens, root, u, h, x);
    PrefixFree(lens, s, u, h);
  }

  lemma FitsParts(lens: seq<int>, t: CodeType)
    requires Fits(lens, t)
    ensures Lengths(lens) && |lens| <= SymbolLimit(t) && Used(CountsOf(lens), MAX_BITS) <= Pow2(MAX_BITS)
  {
  }

  lemma StartsThere(lens: seq<int>, root: nat, s: int, h: nat, x: nat)
    requires Present(lens, s) && root < lens[s] && h % Pow2(root) == Value(lens, s) % Pow2(root) && h / Pow2(root) == x
    requires x % Pow2(lens[s] - root) == Value(lens, s) / Pow2(root)
    ensures Starts(h, lens, s)
  {
    TwoLevels(h, Value(lens, s), root, lens[s] - root);
  }

  // ----- the tables so far -------------------------------------------------------------------------------------------

  /** The tables when r symbols of length len and all shorter ones are in; the table being filled begins at next. */
  ghost predicate Built(table: seq<Entry>, root: nat, lens: seq<int>, t: CodeType, len: int, r: int, next: int,
                        curr: nat, sub: bool, P: nat) {
    && Fits(lens, t) && Pow2(root) <= |table| && 0 <= next && next + Pow2(curr) <= |table| && 1 <= root <= MAX_BITS
    && (forall s {:trigger Before(lens, len, r, s)} :: Before(lens, len, r, s) ==> Found(table, root, lens, t, s))
    && (!sub ==> next == 0 && curr == root && forall s {:trigger Before(lens, len, r, s)} :: Before(lens, len, r, s) ==>
         lens[s] <= root)
    && (sub ==> InSub(table, root, lens, len, r, next, curr, P))
  }

  /** The table being filled is the one for codes that begin with P. */
  ghost predicate InSub(table: seq<Entry>, root: nat, lens: seq<int>, len: int, r: int, next: int, curr: nat, P: nat) {
    && Pow2(root) <= next && 1 <= curr < 16 && P < Pow2(root) <= |table|
         && table[Rev(P, root)] == Entry(curr, root, next)
    && forall s {:trigger Before(lens, len, r, s)} :: Before(lens, len, r, s) && lens[s] > root ==>
         Earlier(table, root, lens, s, next, P)
  }

  /** A longer symbol lies in the table being filled, or in one before it. */
  ghost predicate Earlier(table: seq<Entry>, root: nat, lens: seq<int>, s: int, next: int, P: nat) {
    && Present(lens, s) && root < lens[s] && Pow2(root) <= |table| && Prefix(lens, root, s) <= P
    && (Prefix(lens, root, s) < P ==>
         var lk := table[Value(lens,
             s) % Pow2(root)]; Pow2(root) <= lk.val && IsLink(lk) && lk.val + Pow2(lk.op) <= next)
  }

  // ----- an entry in the root table ----------------------------------------------------------------------------------

  /** s is the next symbol to enter. */
  ghost predicate NextSymbol(lens: seq<int>, len: int, r: int, s: int) {
    0 <= s < |lens| && 1 <= lens[s] == len <= MAX_BITS && Count(lens[..s], len) == r
  }

  lemma NotBefore(lens: seq<int>, t: CodeType, len: int, r: int, s: int)
    requires Fits(lens, t) && NextSymbol(lens, len, r, s)
    ensures Present(lens, s) && s < SymbolLimit(t) && lens[s] == len && !Before(lens, len, r, s)
  {
    hide Code, Used, Pow2;
    IsPresent(lens, s);
  }

  /** With s in, one more of its length is. */
  lemma {:induction false} OneMoreIn(lens: seq<int>, len: int, r: int, s: int, u: int)
    requires NextSymbol(lens, len, r, s) && Before(lens, len, r + 1, u)
    ensures Before(lens, len, r, u) || u == s
  {
    if lens[u] == len && u != s {
      if u < s { CountGrows(lens, u, s, len); } else { CountGrows(lens, s, u, len); }
    }
  }

  lemma RootKeeps(table: seq<Entry>, table': seq<Entry>, root: nat, lens: seq<int>, t: CodeType, s: int, u: int)
    requires Fits(lens, t) && Present(lens, s) && 0 <= s < SymbolLimit(t) && lens[s] <= root && s != u
    requires Found(table, root, lens, t, u) && lens[u] <= root
      && Filled(table, table', 0, root, Value(lens, s), lens[s], Leaf(t, s, lens[s]))
    ensures Found(table', root, lens, t, u)
  {
    hide Code, Used, Rev, Value, Leaf, Pow2;
    RootApart(lens, t, u, s);
    BlockBeside(table, table', 0, root, Value(lens, s), lens[s], Leaf(t, s, lens[s]), Value(lens, u), lens[u],
        Leaf(t, u, lens[u]));
  }

  lemma RootStep(table: seq<Entry>, table': seq<Entry>, root: nat, lens: seq<int>, t: CodeType, len: int, r: int,
                 next: int, curr: nat, P: nat, s: int)
    requires Built(table, root, lens, t, len, r, next, curr, false, P) && NextSymbol(lens, len, r, s) && len <= root
    requires Present(lens, s) && s < SymbolLimit(t)
      && Filled(table, table', 0, root, Value(lens, s), len, Leaf(t, s, len))
    ensures Built(table', root, lens, t, len, r + 1, next, curr, false, P)
  {
    NotBefore(lens, t, len, r, s);
    FilledBlock(table, table', 0, root, Value(lens, s), len, Leaf(t, s, len));
    forall u {:trigger Before(lens, len, r + 1, u)} | Before(lens, len, r + 1, u)
      ensures Found(table', root, lens, t, u) && lens[u] <= root
    {
      OneMoreIn(lens, len, r, s, u);
      if u != s { RootKeeps(table, table', root, lens, t, s, u); }
      hide Code, Used, Value, Leaf, Pow2, Block;
    }
    hide Code, Used, Value, Leaf, Pow2, Block, Found, Before;
  }

  // ----- an entry in a second table ----------------------------------------------------------------------------------

  /** s goes into the table being filled. */
  ghost predicate Belongs(lens: seq<int>, t: CodeType, root: nat, s: int, curr: nat, P: nat) {
    Present(lens, s) && s < SymbolLimit(t) && root < lens[s] <= root + curr && Prefix(lens, root, s) == P
  }

  /** What is known of the table being filled, and what is written to it for s. */
  ghost predicate Writes(table: seq<Entry>, table': seq<Entry>, root: nat, lens: seq<int>, t: CodeType, next: int,
                         curr: nat, P: nat, s: int) {
    && Fits(lens, t) && Belongs(lens, t, root, s, curr, P) && Pow2(root) <= next && P < Pow2(root) <= |table|
         && 1 <= curr < 16
    && table[Rev(P, root)] == Entry(curr, root, next)
    && Filled(table, table', next, curr, Value(lens, s) / Pow2(root), lens[s] - root, Leaf(t, s, lens[s] - root))
  }

  lemma SubKeepsShort(table: seq<Entry>, table': seq<Entry>, root: nat, lens: seq<int>, t: CodeType, next: int,
                      curr: nat, P: nat, s: int, u: int)
    requires Writes(table, table', root, lens, t, next, curr, P, s) && Found(table, root, lens, t, u) && lens[u] <= root
    ensures Found(table', root, lens, t, u)
  {
    hide Code, Value, Leaf, Pow2, Block, FoundBelow, Rev, Filled, Prefix;
    BlockApart(table, table', next, curr, Value(lens, s) / Pow2(root), lens[s] - root, Leaf(t, s, lens[s] - root), 0,
        root, Value(lens, u), lens[u], Leaf(t, u, lens[u]));
    FilledLength(table, table', next, curr, Value(lens, s) / Pow2(root), lens[s] - root, Leaf(t, s, lens[s] - root));
  }

  lemma FilledLength(table: seq<Entry>, table': seq<Entry>, base: int, cur: nat, v: int, l: nat, e: Entry)
    requires Filled(table, table', base, cur, v, l, e)
    ensures |table'| == |table| && forall a {:trigger table'[a]} :: 0 <= a < base && a < |table| ==>
      table'[a] == table[a]
  {
  }

  lemma SubKeepsLong(table: seq<Entry>, table': seq<Entry>, root: nat, lens: seq<int>, t: CodeType, next: int,
                     curr: nat, P: nat, s: int, u: int)
    requires Writes(table, table', root, lens, t, next, curr, P, s) && s != u
    requires Found(table, root, lens, t, u) && lens[u] > root && Earlier(table, root, lens, u, next, P)
    ensures Found(table', root, lens, t, u) && Earlier(table', root, lens, u, next, P)
  {
    hide Code, Value, Leaf, Pow2, Block, Rev, Filled, Prefix;
    var e, vs := Leaf(t, s, lens[s] - root), Value(lens, s) / Pow2(root);
    LinkPlace(lens, root, s);
    LinkPlace(lens, root, u);
    FilledLength(table, table', next, curr, vs, lens[s] - root, e);
    var j := Value(lens, u) % Pow2(root);
    assert table'[j] == table[j];
    var f, k := Leaf(t, u, lens[u] - root), lens[u] - root;
    if Prefix(lens, root, u) < P {
      BlockApart(table, table', next, curr, vs, lens[s] - root, e, table[j].val, table[j].op,
          Value(lens, u) / Pow2(root), k, f);
    } else {
      SubApart(lens, t, root, u, s);
      BlockBeside(table, table', next, curr, vs, lens[s] - root, e, Value(lens, u) / Pow2(root), k, f);
    }
  }

  lemma SubEnters(table: seq<Entry>, table': seq<Entry>, root: nat, lens: seq<int>, t: CodeType, next: int, curr: nat,
                  P: nat, s: int)
    requires Writes(table, table', root, lens, t, next, curr, P, s)
    ensures Found(table', root, lens, t, s) && Earlier(table', root, lens, s, next, P) && |table'| == |table|
      && table'[Rev(P, root)] == table[Rev(P, root)]
  {
    hide Code, Value, Leaf, Pow2, Block, Prefix, Rev, Filled;
    LinkPlace(lens, root, s);
    FilledBlock(table, table', next, curr, Value(lens, s) / Pow2(root), lens[s] - root, Leaf(t, s, lens[s] - root));
    FilledLength(table, table', next, curr, Value(lens, s) / Pow2(root), lens[s] - root, Leaf(t, s, lens[s] - root));
  }

  lemma InSubParts(table: seq<Entry>, root: nat, lens: seq<int>, t: CodeType, len: int, r: int, next: int, curr: nat,
                   P: nat)
    requires Built(table, root, lens, t, len, r, next, curr, true, P)
    ensures Fits(lens, t) && Pow2(root) <= next && P < Pow2(root) <= |table| && 1 <= curr < 16
      && table[Rev(P, root)] == Entry(curr, root, next)
    ensures next + Pow2(curr) <= |table| && 1 <= root <= MAX_BITS
    ensures forall s {:trigger Before(lens, len, r, s)} :: Before(lens, len, r, s) ==>
      Found(table, root, lens, t, s) && (lens[s] > root ==> Earlier(table, root, lens, s, next, P))
  {
    hide Found, Earlier, Before, Pow2, Rev;
  }

  lemma InSubAgain(table: seq<Entry>, root: nat, lens: seq<int>, t: CodeType, len: int, r: int, next: int, curr: nat,
                   P: nat)
    requires Fits(lens, t) && Pow2(root) <= next && P < Pow2(root) <= |table| && 1 <= curr < 16
      && table[Rev(P, root)] == Entry(curr, root, next)
    requires next + Pow2(curr) <= |table| && 1 <= root <= MAX_BITS
    requires forall s {:trigger Before(lens, len, r, s)} :: Before(lens, len, r, s) ==>
      Found(table, root, lens, t, s) && (lens[s] > root ==> Earlier(table, root, lens, s, next, P))
    ensures Built(table, root, lens, t, len, r, next, curr, true, P)
  {
    hide Found, Earlier, Before, Pow2, Rev;
  }

  lemma SubStep(table: seq<Entry>, table': seq<Entry>, root: nat, lens: seq<int>, t: CodeType, len: int, r: int,
                next: int, curr: nat, P: nat, s: int)
    requires Built(table, root, lens, t, len, r, next, curr, true, P) && NextSymbol(lens, len, r, s)
      && Writes(table, table', root, lens, t, next, curr, P, s)
    ensures Built(table', root, lens, t, len, r + 1, next, curr, true, P)
  {
    hide Built, Fits, Found, Earlier, Writes, NextSymbol, Pow2, Rev, Count;
    InSubParts(table, root, lens, t, len, r, next, curr, P);
    SubEnters(table, table', root, lens, t, next, curr, P, s);
    forall u {:trigger Before(lens, len, r + 1, u)} | Before(lens, len, r + 1, u)
      ensures Found(table', root, lens, t, u) && (lens[u] > root ==> Earlier(table', root, lens, u, next, P))
    {
      OneMoreIn(lens, len, r, s, u);
      if u != s {
        if lens[u] <= root {
          SubKeepsShort(table, table', root, lens, t, next, curr, P, s, u);
        } else {
          SubKeepsLong(table, table', root, lens, t, next, curr, P, s, u);
        }
      }
    }
    InSubAgain(table', root, lens, t, len, r + 1, next, curr, P);
  }

  // ----- a new second table ------------------------------------------------------------------------------------------

  /** A block that does not hold place j is left alone by a write there. */
  lemma BlockWrite(table: seq<Entry>, j: int, e: Entry, base: int, cur: nat, v: int, l: nat, f: Entry)
    requires 0 <= j < |table| && Block(table, base, cur, v, l, f)
      && (j < base || base + Pow2(cur) <= j || (j - base) % Pow2(l) != v)
    ensures Block(table[j := e], base, cur, v, l, f)
  {
    hide Pow2;
    var after := table[j := e];
    forall a {:trigger after[a]} | base <= a < base + Pow2(cur) && (a - base) % Pow2(l) == v
      ensures after[a] == f
    {
      assert table[a] == f;
    }
  }

  /** Codes have as many bits as their length. */
  lemma CodeFits(lens: seq<int>, t: CodeType, s: int)
    requires Fits(lens, t) && Present(lens, s)
    ensures Code(lens, s) < Pow2(lens[s])
  {
    CodeInRange(lens, s);
    UsedFits(CountsOf(lens), lens[s], MAX_BITS);
  }

  lemma PrefixFits(lens: seq<int>, t: CodeType, root: nat, s: int)
    requires Fits(lens, t) && Present(lens, s) && root < lens[s]
    ensures Prefix(lens, root, s) < Pow2(root)
  {
    CodeFits(lens, t, s);
    ShrFits(Code(lens, s), root, lens[s] - root);
  }

  /** The link of a new table falls on no entry of a symbol already in. */
  lemma LinkKeepsShort(table: seq<Entry>, root: nat, lens: seq<int>, t: CodeType, s: int, u: int, e: Entry)
    requires Fits(lens, t) && Present(lens, s) && root < lens[s] && s != u && Found(table, root, lens, t, u)
      && lens[u] <= root
    ensures Rev(Prefix(lens, root, s), root) < |table|
      && Found(table[Rev(Prefix(lens, root, s), root) := e], root, lens, t, u)
  {
    OtherBlock(lens, t, root, s, u);
    ShortIs(table, root, lens, t, u);
    hide *;
    var place := Rev(Prefix(lens, root, s), root);
    BlockWrite(table, place, e, 0, root, Value(lens, u), lens[u], Leaf(t, u, lens[u]));
    ShortIs(table[place := e], root, lens, t, u);
  }

  /** A link lies outside the blocks of the short codes. */
  lemma OtherBlock(lens: seq<int>, t: CodeType, root: nat, s: int, u: int)
    requires Fits(lens, t) && Present(lens, s) && root < lens[s] && s != u && Present(lens, u) && lens[u] <= root
    ensures Rev(Prefix(lens, root, s), root) < Pow2(root)
    ensures Rev(Prefix(lens, root, s), root) % Pow2(lens[u]) != Value(lens, u)
  {
    var h := Value(lens, s);
    LinkPlace(lens, root, s);
    ModMod(h, lens[u], root);
    if h % Pow2(lens[u]) == Value(lens, u) {
      SmallMod(h, Pow2(lens[s]));
      PrefixFree(lens, s, u, h);
    }
  }

  lemma ShortIs(table: seq<Entry>, root: nat, lens: seq<int>, t: CodeType, u: int)
    requires Present(lens, u) && lens[u] <= root
    ensures Found(table, root, lens, t, u) <==>
      u < SymbolLimit(t) && Pow2(root) <= |table| && Block(table, 0, root, Value(lens, u), lens[u], Leaf(t, u, lens[u]))
    ensures Found(table, root, lens, t, u) ==> 0 <= Pow2(root) <= |table|
  {
  }

  lemma LinkKeepsLong(table: seq<Entry>, root: nat, lens: seq<int>, t: CodeType, next: int, curr: nat, P: nat, P': nat,
                      u: int, e: Entry, next': int)
    requires Fits(lens, t) && Found(table, root, lens, t, u) && lens[u] > root && Earlier(table, root, lens, u, next, P)
    requires Pow2(root) <= next && P < P' < Pow2(root) <= |table| && table[Rev(P, root)] == Entry(curr, root, next)
      && next' == next + Pow2(curr)
    ensures Rev(P', root) < |table| && Found(table[Rev(P', root) := e], root, lens, t, u)
      && Earlier(table[Rev(P', root) := e], root, lens, u, next', P')
  {
    hide Code, Value, Leaf, Pow2, Block, Rev, Prefix;
    PrefixFits(lens, t, root, u);
    LinkPlace(lens, root, u);
    if Rev(Prefix(lens, root, u), root) == Rev(P', root) { RevInjective(Prefix(lens, root, u), P', root); }
    var j := Value(lens, u) % Pow2(root);
    var after := table[Rev(P', root) := e];
    assert after[j] == table[j];
    BlockWrite(table, Rev(P', root), e, table[j].val, table[j].op, Value(lens, u) / Pow2(root), lens[u] - root,
        Leaf(t, u, lens[u] - root));
  }

  /** The table for a new prefix, the first of all or one past that of the last table. */
  lemma NewTable(table: seq<Entry>, root: nat, lens: seq<int>, t: CodeType, len: int, r: int, next: int, curr: nat,
                 sub: bool, P: nat,
                 s: int, next': int, curr': nat)
    requires Built(table, root, lens, t, len, r, next, curr, sub, P) && NextSymbol(lens, len, r, s) && Present(lens, s)
      && root < len
    requires sub ==> P < Prefix(lens, root, s)
    requires next' == next + Pow2(curr) && 1 <= curr' < 16 && next' + Pow2(curr') <= |table|
    ensures var j := Rev(Prefix(lens, root, s), root);
      j < |table| && Built(table[j := Entry(curr', root, next')], root, lens, t, len, r, next', curr', true,
          Prefix(lens, root, s))
  {
    hide Found, Earlier, Code, Pow2, Rev, Prefix, Count, Used;
    NotBefore(lens, t, len, r, s);
    PrefixFits(lens, t, root, s);
    var P' := Prefix(lens, root, s);
    var e := Entry(curr', root, next');
    RevBound(P', root);
    var after := table[Rev(P', root) := e];
    forall u {:trigger Before(lens, len, r, u)} | Before(lens, len, r, u)
      ensures Found(after, root, lens, t, u) && (lens[u] > root ==> Earlier(after, root, lens, u, next', P'))
    {
      if lens[u] <= root {
        LinkKeepsShort(table, root, lens, t, s, u, e);
      } else {
        LinkKeepsLong(table, root, lens, t, next, curr, P, P', u, e, next');
      }
    }
    assert sub ==> Pow2(root) <= next' ;
    InSubAgain(after, root, lens, t, len, r, next', curr', P');
  }

  lemma RevBound(c: nat, n: nat)
    ensures Rev(c, n) < Pow2(n)
  {
  }

  // ----- from one symbol to the next ---------------------------------------------------------------------------------

  lemma BuiltSame(table: seq<Entry>, root: nat, lens: seq<int>, t: CodeType, len: int, r: int, next: int, curr: nat,
                  sub: bool, P: nat, len': int, r': int)
    requires Built(table, root, lens, t, len, r, next, curr, sub, P)
    requires forall s {:trigger Before(lens, len', r', s)} :: Before(lens, len', r', s) ==> Before(lens, len, r, s)
    ensures Built(table, root, lens, t, len', r', next, curr, sub, P)
  {
    hide Found, Earlier, Pow2, Rev, Fits;
  }

  /** When all of length len are in, so is everything shorter than the next length in use. */
  lemma NextLengthIn(lens: seq<int>, len: int, len': int, s: int)
    requires Lengths(lens) && Before(lens, len', 0, s) && len < len' <= MAX_BITS && 1 <= len
    requires forall l {:trigger Count(lens, l)} :: len < l < len' ==> Count(lens, l) == 0
    ensures Before(lens, len, Count(lens, len), s)
  {
    hide Count;
    CountBefore(lens, s);
  }

  lemma {:induction false} ShrAppended(x: nat, k: nat)
    ensures Shr(x * Pow2(k), k) == x
    decreases k
  {
    if k == 0 {
      assert Pow2(0) == 1;
    } else {
      EvenHalf(x, Pow2(k - 1));
      ShrAppended(x, k - 1);
      ShrShr(x * Pow2(k), 1, k - 1);
      assert Shr(x * Pow2(k), 1) == x * Pow2(k) / 2;
    }
  }

  /** Counting on, the bits above the low m stay the same, or go up by one as those become zeros. */
  lemma {:induction false} ShrNextUp(c: nat, m: nat)
    ensures Shr(c + 1, m) == Shr(c, m) || (Shr(c + 1, m) == Shr(c, m) + 1 && c + 1 == Shr(c + 1, m) * Pow2(m))
    decreases m
  {
    if m == 0 {
      assert Pow2(0) == 1;
    } else {
      ShrShr(c, 1, m - 1);
      ShrShr(c + 1, 1, m - 1);
      assert Shr(c, 1) == c / 2 && Shr(c + 1, 1) == (c + 1) / 2;
      if c % 2 == 1 {
        ShrNextUp(c / 2, m - 1);
        assert (c + 1) / 2 == c / 2 + 1;
        Twice(Shr(c + 1, m), Pow2(m - 1));
      }
    }
  }

  /** The first code of the next length in use. */
  lemma FirstAfter(cnt: seq<int>, len: nat, len': nat)
    requires 1 <= len < len' < |cnt| && forall l {:trigger cnt[l]} :: len < l < len' ==> cnt[l] == 0
    ensures FirstCode(cnt, len') == Used(cnt, len) * Pow2(len' - len)
  {
    UsedToTop(cnt, len, len' - 1);
    Doubled(Used(cnt, len), len' - len);
  }

  /** c' of length len' is the code after c of length len, in canonical order. */
  ghost predicate NextCode(c: nat, len: nat, c': nat, len': nat) {
    1 <= len <= len' && c' == (c + 1) * Pow2(len' - len)
  }

  /** The next code in reversal is the same number as the increment. */
  lemma NextReversed(c: nat, len: nat, c': nat, len': nat)
    requires NextCode(c, len, c', len')
    ensures Rev(c', len') == Rev(c + 1, len)
  {
    RevAppended(c + 1, len, len' - len);
  }

  /** The prefix of the next code: no lower, and if it is new, the code is the first that has it. */
  lemma NextPrefix(c: nat, len: nat, c': nat, len': nat, root: nat)
    requires NextCode(c, len, c', len') && root < len'
    ensures root < len ==> Shr(c, len - root) <= Shr(c', len' - root)
    ensures (root < len && Shr(c, len - root) == Shr(c', len' - root)) || c' == Shr(c', len' - root) * Pow2(len' - root)
  {
    var k := len' - len;
    if root < len {
      ShrAppended(c + 1, k);
      ShrShr(c', k, len - root);
      ShrNextUp(c, len - root);
      var q := Shr(c + 1, len - root);
      Pow2Sum(len - root, k);
      Triple(q, Pow2(len - root), Pow2(k));
    } else {
      var x := (c + 1) * Pow2(root - len);
      Pow2Sum(root - len, len' - root);
      Triple(c + 1, Pow2(root - len), Pow2(len' - root));
      ShrAppended(x, len' - root);
    }
  }

  lemma Triple(a: nat, p: nat, q: nat)
    ensures a * p * q == a * (p * q)
  {
  }

  /** If the codes up to length L use up all that begins with P, no longer code begins with it. */
  lemma UsedUp(lens: seq<int>, t: CodeType, root: nat, P: nat, L: nat, s: int)
    requires Fits(lens, t) && Present(lens, s) && 1 <= root <= L < lens[s]
      && (P + 1) * Pow2(L - root) <= Used(CountsOf(lens), L)
    ensures Prefix(lens, root, s) > P
  {
    hide Code, Used, CountsOf, Pow2;
    var cnt, c, k := CountsOf(lens), Code(lens, s), lens[s] - L;
    CodeInRange(lens, s);
    CutShort(cnt, L, k, c);
    ShrCompare(Shr(c, k), P + 1, L - root);
    ShrShr(c, k, L - root);
  }
}
