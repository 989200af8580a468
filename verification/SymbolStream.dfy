/**
 The coded symbols of a bzip2 block: each group of fifty is written with the code its selector names
 (dep/bzip2/compress.c) and read back through that code's tables (dep/bzip2/decompress.c).
 */
module SymbolStream {
  import opened Counting
  import opened CanonicalCode
  import opened Powers

  const G_SIZE := 50

  datatype Table = Table(limit: seq<int>, base: seq<int>, perm: seq<int>, minLen: int)

  /** The table is sound to index. */
  predicate Shaped(t: Table) {
    |t.limit| == |t.base| == |t.perm| == MAX_ALPHA_SIZE && 1 <= t.minLen <= LONGEST
  }

  /** The outcome of reading one symbol. */
  datatype Read = Sym(s: int, rest: seq<int>) | BadCode | Short

  /** The search loop: longer and longer codes are compared with the last code of their length. */
  function Search(t: Table, zn: nat, zvec: int, bits: seq<int>): Read
    requires Shaped(t)
    decreases |bits|
  {
    if zn > LONGEST then BadCode
    else if zvec <= t.limit[zn] then
      var k := zvec - t.base[zn];
      if k < 0 || k >= MAX_ALPHA_SIZE then BadCode else Sym(t.perm[k], bits)
    else if bits == [] then Short
    else Search(t, zn + 1, 2 * zvec + bits[0], bits[1..])
  }

  /** One symbol from the front of the bits. */
  function ReadSymbol(t: Table, bits: seq<int>): Read
    requires Shaped(t)
  {
    if |bits| < t.minLen then Short else Search(t, t.minLen, ShiftIn(0, bits[..t.minLen]), bits[t.minLen..])
  }

  /** The table decodes the canonical code with these lengths, whose Kraft sum is at most one. */
  ghost predicate Decodes(t: Table, len: seq<int>, maxLen: int) {
    && Shaped(t) && Tables(t.limit, t.base, t.perm, len, t.minLen, maxLen)
    && Kraft(len, LONGEST) <= Pow2(LONGEST)
  }

  /** What the table says at a length in use. */
  lemma TableAt(t: Table, len: seq<int>, maxLen: int, l: int)
    requires Decodes(t, len, maxLen) && t.minLen <= l <= maxLen
    ensures 0 <= l <= LONGEST && t.limit[l] == First(len, l) + Count(len, l) - 1
      && t.base[l] == First(len, l) - Below(len, l)
  {
    hide First, Count, Below, Kraft, Pow2;
  }

  lemma LengthAt(t: Table, len: seq<int>, maxLen: int, s: nat)
    requires Decodes(t, len, maxLen) && s < |len|
    ensures Shaped(t) && 1 <= t.minLen <= len[s] <= maxLen <= LONGEST && 0 <= Rank(len, s) < |len| <= MAX_ALPHA_SIZE
      && t.perm[Rank(len, s)] == s
  {
    hide First, Count, Below, Kraft, Pow2, Rank;
  }

  /** From a proper prefix of a code the search goes on; at its full length it finds the symbol. */
  lemma {:induction false} SearchFinds(t: Table, len: seq<int>, maxLen: int, s: nat, k: nat, tail: seq<int>)
    requires Decodes(t, len, maxLen) && s < |len| && k <= len[s] - t.minLen
    ensures Search(t, len[s] - k, Shr(Code(len, s), k), BitsOf(Code(len, s), k) + tail) == Sym(s, tail)
    decreases k
  {
    hide *;
    LengthAt(t, len, maxLen, s);
    var c, l := Code(len, s), len[s];
    if k == 0 {
      SearchEnds(t, len, maxLen, s, tail);
    } else {
      PrefixLarge(t, len, maxLen, s, k);
      SearchFinds(t, len, maxLen, s, k - 1, tail);
      SearchOn(t, l - k, c, k, tail);
    }
  }

  lemma SearchEnds(t: Table, len: seq<int>, maxLen: int, s: nat, tail: seq<int>)
    requires Decodes(t, len, maxLen) && s < |len| && len[s] >= 0
    ensures Search(t, len[s], Shr(Code(len, s), 0), BitsOf(Code(len, s), 0) + tail) == Sym(s, tail)
  {
    hide *;
    LengthAt(t, len, maxLen, s);
    TableAt(t, len, maxLen, len[s]);
    CodeRange(len, s);
    RankIs(len, s);
    CodeIs(len, s);
    SearchHits(t, len[s], Code(len, s), tail);
  }

  lemma SearchHits(t: Table, zn: nat, c: nat, tail: seq<int>)
    requires Shaped(t) && zn <= LONGEST && c <= t.limit[zn] && 0 <= c - t.base[zn] < MAX_ALPHA_SIZE
    ensures Search(t, zn, Shr(c, 0), BitsOf(c, 0) + tail) == Sym(t.perm[c - t.base[zn]], tail)
  {
    assert BitsOf(c, 0) + tail == tail && Shr(c, 0) == c;
  }

  lemma SearchOn(t: Table, zn: nat, c: nat, k: nat, tail: seq<int>)
    requires Shaped(t) && zn <= LONGEST && k > 0 && Shr(c, k) > t.limit[zn]
    ensures Search(t, zn, Shr(c, k), BitsOf(c, k) + tail) == Search(t, zn + 1, Shr(c, k - 1), BitsOf(c, k - 1) + tail)
  {
    BitsNext(c, k);
    var bits := BitsOf(c, k) + tail;
    assert bits[1..] == BitsOf(c, k - 1) + tail;
    assert 2 * Shr(c, k) + bits[0] == Shr(c, k - 1);
  }

  lemma CodeIs(len: seq<int>, s: nat)
    requires s < |len| && len[s] >= 0
    ensures Code(len, s) == First(len, len[s]) + Count(len[..s], len[s])
  {
  }

  lemma PrefixLarge(t: Table, len: seq<int>, maxLen: int, s: nat, k: nat)
    requires Decodes(t, len, maxLen) && s < |len| && 0 < k <= len[s] - t.minLen
    ensures t.minLen <= len[s] - k <= LONGEST && Shr(Code(len, s), k) > t.limit[len[s] - k]
  {
    hide *;
    LengthAt(t, len, maxLen, s);
    var l := len[s] - k;
    TableAt(t, len, maxLen, l);
    CodeRange(len, s);
    PrefixPastUsed(len, l, k, Code(len, s));
  }

  /** Reading inverts writing, for one symbol followed by anything. */
  lemma SymbolRoundTrip(t: Table, len: seq<int>, maxLen: int, s: nat, tail: seq<int>)
    requires Decodes(t, len, maxLen) && s < |len|
    ensures len[s] >= 0 && ReadSymbol(t, BitsOf(Code(len, s), len[s]) + tail) == Sym(s, tail)
  {
    hide *;
    LengthAt(t, len, maxLen, s);
    CodeFits(t, len, maxLen, s);
    var c, l, k := Code(len, s), len[s], len[s] - t.minLen;
    SearchFinds(t, len, maxLen, s, k, tail);
    ShiftAll(c, t.minLen, k);
    ReadSplits(t, c, k, tail);
  }

  lemma ReadSplits(t: Table, c: nat, k: nat, tail: seq<int>)
    requires Shaped(t)
    ensures ReadSymbol(t, BitsOf(c, t.minLen + k) + tail)
      == Search(t, t.minLen, ShiftIn(0, BitsOf(Shr(c, k), t.minLen)), BitsOf(c, k) + tail)
  {
    hide Search, ShiftIn, BitsOf, Shr;
    BitsSplit(c, t.minLen, k);
    var bits := BitsOf(c, t.minLen + k) + tail;
    assert bits[..t.minLen] == BitsOf(Shr(c, k), t.minLen);
    assert bits[t.minLen..] == BitsOf(c, k) + tail;
  }

  /** All the bits above the low k of an (m+k)-bit number. */
  lemma ShiftAll(c: nat, m: nat, k: nat)
    requires c < Pow2(m + k)
    ensures ShiftIn(0, BitsOf(Shr(c, k), m)) == Shr(c, k)
  {
    ShrShr(c, k, m);
    ShrCompare(c, 1, m + k);
    ShiftBack(Shr(c, k), m);
  }

  lemma CodeFits(t: Table, len: seq<int>, maxLen: int, s: nat)
    requires Decodes(t, len, maxLen) && s < |len|
    ensures len[s] >= 0 && Code(len, s) < Pow2(len[s])
  {
    hide First, Count, Below, Code, Rank, Kraft;
    CodesFit(len, LONGEST, len[s]);
    CodeRange(len, s);
  }

  // ----- groups ---------------------------------------------------------------------------------------------

  /** Symbol n of a block uses the code of group n / 50. */
  function GroupOf(n: nat): nat {
    n / G_SIZE
  }

  ghost predicate Readable(t: Table, len: seq<int>) {
    exists maxLen :: Decodes(t, len, maxLen)
  }

  /** A block's codes: one list of lengths and one decoding table per code, and the selector of each group. */
  ghost predicate Codes(lens: seq<seq<int>>, tables: seq<Table>, selector: seq<int>) {
    && |lens| == |tables| && (forall g :: 0 <= g < |selector| ==> 0 <= selector[g] < |lens|)
    && forall g {:trigger tables[g]} {:trigger lens[g]} :: 0 <= g < |lens| ==> Readable(tables[g], lens[g])
  }

  /** Every symbol, the first of them number n of the block, has a code in its group. */
  ghost predicate Coded(lens: seq<seq<int>>, selector: seq<int>, syms: seq<int>, n: nat)
    decreases |syms|
  {
    syms == [] ||
    (&& GroupOf(n) < |selector| && 0 <= selector[GroupOf(n)] < |lens|
     && 0 <= syms[0] < |lens[selector[GroupOf(n)]]| && lens[selector[GroupOf(n)]][syms[0]] >= 0
     && Coded(lens, selector, syms[1..], n + 1))
  }

  /** The bits of the symbols. */
  ghost function Written(lens: seq<seq<int>>, selector: seq<int>, syms: seq<int>, n: nat): (b: seq<int>)
    requires Coded(lens, selector, syms, n)
    decreases |syms|
  {
    if syms == [] then []
    else
      var len := lens[selector[GroupOf(n)]];
      BitsOf(Code(len, syms[0]), len[syms[0]]) + Written(lens, selector, syms[1..], n + 1)
  }

  /** The outcome of reading a block's symbols up to the end marker. */
  datatype Block = Symbols(syms: seq<int>, rest: seq<int>) | Corrupt | NeedBits

  /** Reading from symbol number n on, until the end marker. */
  ghost function ReadBlock(tables: seq<Table>, selector: seq<int>, bits: seq<int>, n: nat, eob: int): Block
    requires forall g :: 0 <= g < |tables| ==> Shaped(tables[g])
    requires forall g :: 0 <= g < |selector| ==> 0 <= selector[g] < |tables|
    decreases |selector| * G_SIZE - n
  {
    if GroupOf(n) >= |selector| then Corrupt
    else
      match ReadSymbol(tables[selector[GroupOf(n)]], bits)
      case BadCode => Corrupt
      case Short => NeedBits
      case Sym(s, rest) =>
        if s == eob then Symbols([s], rest)
        else
          match ReadBlock(tables, selector, rest, n + 1, eob)
          case Symbols(more, rest') => Symbols([s] + more, rest')
          case Corrupt => Corrupt
          case NeedBits => NeedBits
  }

  lemma CodesShaped(lens: seq<seq<int>>, tables: seq<Table>, selector: seq<int>)
    requires Codes(lens, tables, selector)
    ensures forall g :: 0 <= g < |tables| ==> Shaped(tables[g])
  {
    forall g | 0 <= g < |tables| ensures Shaped(tables[g]) {
      assert Readable(tables[g], lens[g]);
      var maxLen :| Decodes(tables[g], lens[g], maxLen);
    }
  }

  /** A whole block of symbols ending in the marker reads back as written, whatever bits follow. */
  lemma {:induction false} BlockRoundTrip(lens: seq<seq<int>>, tables: seq<Table>, selector: seq<int>, syms: seq<int>,
                                          n: nat, eob: int, tail: seq<int>)
    requires Codes(lens, tables, selector) && Coded(lens, selector, syms, n)
    requires syms != [] && syms[|syms| - 1] == eob && forall i :: 0 <= i < |syms| - 1 ==> syms[i] != eob
    ensures forall g :: 0 <= g < |tables| ==> Shaped(tables[g])
    ensures ReadBlock(tables, selector, Written(lens, selector, syms, n) + tail, n, eob) == Symbols(syms, tail)
    decreases |syms|
  {
    CodesShaped(lens, tables, selector);
    var g, s := WrittenStep(lens, tables, selector, syms, n, tail);
    var later := Written(lens, selector, syms[1..], n + 1) + tail;
    ReadBlockStep(tables, selector, Written(lens, selector, syms, n) + tail, n, eob, s, later);
    hide *;
    var more := LaterSymbols(syms, eob);
    if more == [] {
      WrittenNothing(lens, selector, more, n + 1, tail);
    } else {
      BlockRoundTrip(lens, tables, selector, more, n + 1, eob, tail);
    }
  }

  lemma LaterSymbols(syms: seq<int>, eob: int) returns (more: seq<int>)
    requires syms != [] && syms[|syms| - 1] == eob && forall i :: 0 <= i < |syms| - 1 ==> syms[i] != eob
    ensures more == syms[1..] && syms == [syms[0]] + more && |more| < |syms|
    ensures more == [] ==> syms == [eob] && syms[0] == eob
    ensures more != [] ==> syms[0] != eob && more[|more| - 1] == eob && forall i ::
      0 <= i < |more| - 1 ==> more[i] != eob
  {
    more := syms[1..];
  }

  lemma WrittenNothing(lens: seq<seq<int>>, selector: seq<int>, syms: seq<int>, n: nat, tail: seq<int>)
    requires syms == []
    ensures Coded(lens, selector, syms, n) && Written(lens, selector, syms, n) + tail == tail
  {
  }

  /** The first symbol's bits read back as the symbol, leaving the bits of the others. */
  lemma WrittenStep(lens: seq<seq<int>>, tables: seq<Table>, selector: seq<int>, syms: seq<int>, n: nat, tail: seq<int>)
    returns (g: nat, s: int)
    requires Codes(lens, tables, selector) && Coded(lens, selector, syms, n) && syms != []
    ensures GroupOf(n) < |selector| && 0 <= selector[GroupOf(n)] < |tables| && g == selector[GroupOf(n)] && s == syms[0]
    ensures Coded(lens, selector, syms[1..], n + 1) && Shaped(tables[g])
    ensures ReadSymbol(tables[g], Written(lens, selector, syms, n) + tail)
      == Sym(s, Written(lens, selector, syms[1..], n + 1) + tail)
  {
    g, s := selector[GroupOf(n)], syms[0];
    WrittenSplits(lens, selector, syms, n, tail);
    var maxLen := CodeOf(lens, tables, selector, g);
    hide *;
    DecodesShaped(tables[g], lens[g], maxLen);
    SymbolRoundTrip(tables[g], lens[g], maxLen, s, Written(lens, selector, syms[1..], n + 1) + tail);
  }

  lemma WrittenSplits(lens: seq<seq<int>>, selector: seq<int>, syms: seq<int>, n: nat, tail: seq<int>)
    requires Coded(lens, selector, syms, n) && syms != []
    ensures GroupOf(n) < |selector| && 0 <= selector[GroupOf(n)] < |lens| && 0 <= syms[0] < |lens[selector[GroupOf(n)]]|
    ensures Coded(lens, selector, syms[1..], n + 1)
    ensures lens[selector[GroupOf(n)]][syms[0]] >= 0
    ensures Written(lens, selector, syms, n) + tail
         == BitsOf(Code(lens[selector[GroupOf(n)]], syms[0]), lens[selector[GroupOf(n)]][syms[0]])
          + (Written(lens, selector, syms[1..], n + 1) + tail)
  {
    hide Code, BitsOf;
    var len := lens[selector[GroupOf(n)]];
    var first, later := BitsOf(Code(len, syms[0]), len[syms[0]]), Written(lens, selector, syms[1..], n + 1);
    assert first + later + tail == first + (later + tail);
  }

  lemma CodeOf(lens: seq<seq<int>>, tables: seq<Table>, selector: seq<int>, g: int) returns (maxLen: int)
    requires Codes(lens, tables, selector) && 0 <= g < |lens|
    ensures g < |tables| && Decodes(tables[g], lens[g], maxLen)
  {
    hide Decodes;
    assert Readable(tables[g], lens[g]);
    maxLen :| Decodes(tables[g], lens[g], maxLen);
  }

  lemma DecodesShaped(t: Table, len: seq<int>, maxLen: int)
    requires Decodes(t, len, maxLen)
    ensures Shaped(t)
  {
  }

  lemma ReadBlockStep(tables: seq<Table>, selector: seq<int>, bits: seq<int>, n: nat, eob: int, s: int, rest: seq<int>)
    requires forall g :: 0 <= g < |tables| ==> Shaped(tables[g])
    requires forall g :: 0 <= g < |selector| ==> 0 <= selector[g] < |tables|
    requires GroupOf(n) < |selector| && ReadSymbol(tables[selector[GroupOf(n)]], bits) == Sym(s, rest)
    ensures s == eob ==> ReadBlock(tables, selector, bits, n, eob) == Symbols([s], rest)
    ensures s != eob && ReadBlock(tables, selector, rest, n + 1, eob).Symbols? ==>
      ReadBlock(tables, selector, bits, n, eob)
      == Symbols([s] + ReadBlock(tables, selector, rest, n + 1, eob).syms,
        ReadBlock(tables, selector, rest, n + 1, eob).rest)
  {
    hide ReadSymbol;
  }

  // ----- the reader -----------------------------------------------------------------------------------------

  datatype Status = Ok(sym: int) | Error | Pending

  /** The decoder's place in the symbols: current group, symbols left in it, and the bits not yet read. */
  class SymbolReader {
    const tables: seq<Table>
    const selector: seq<int>
    var groupNo: int
    var groupPos: int
    var gSel: int
    var bits: seq<int>
    ghost var n: nat

    /** n symbols have been read. */
    ghost predicate Valid()
      reads this
    {
      && (forall g :: 0 <= g < |tables| ==> Shaped(tables[g]))
      && (forall g :: 0 <= g < |selector| ==> 0 <= selector[g] < |tables|)
      && -1 <= groupNo < |selector| && 0 <= groupPos < G_SIZE
      && n + groupPos == G_SIZE * (groupNo + 1)
      && (groupPos > 0 ==> groupNo >= 0 && gSel == selector[groupNo])
    }

    constructor (tables: seq<Table>, selector: seq<int>, bits: seq<int>)
      requires forall g :: 0 <= g < |tables| ==> Shaped(tables[g])
      requires forall g :: 0 <= g < |selector| ==> 0 <= selector[g] < |tables|
      ensures Valid() && n == 0 && this.tables == tables && this.selector == selector && this.bits == bits
    {
      this.tables, this.selector, this.bits := tables, selector, bits;
      groupNo, groupPos, gSel, n := -1, 0, 0, 0;
    }

    /** Reads one symbol with the code of its group. */
    method Next() returns (r: Status)
      requires Valid()
      modifies this
      ensures r.Ok? ==> Valid() && n == old(n) + 1
      ensures r.Ok? ==>
        GroupOf(old(n)) < |selector| && ReadSymbol(tables[selector[GroupOf(old(n))]], old(bits)) == Sym(r.sym, bits)
      ensures r == Error ==>
        GroupOf(old(n)) >= |selector| || ReadSymbol(tables[selector[GroupOf(old(n))]], old(bits)) == BadCode
      ensures r == Pending ==>
        GroupOf(old(n)) < |selector| && ReadSymbol(tables[selector[GroupOf(old(n))]], old(bits)) == Short
    {
      hide ReadSymbol, Shaped;
      if groupPos == 0 {
        if groupNo + 1 >= |selector| { return Error; }
        groupNo := groupNo + 1;
        groupPos := G_SIZE;
        gSel := selector[groupNo];
      }
      groupPos := groupPos - 1;
      assert GroupOf(n) == groupNo;
      match ReadSymbol(tables[gSel], bits)
      case BadCode => r := Error;
      case Short => r := Pending;
      case Sym(s, rest) =>
        r := Ok(s);
        bits := rest;
        n := n + 1;
    }

    /** Reads symbols up to and including the end marker. */
    method ReadAll(eob: int) returns (b: Block)
      requires Valid() && n == 0
      modifies this
      ensures b == ReadBlock(tables, selector, old(bits), 0, eob)
    {
      hide ReadSymbol, Shaped;
      ghost var whole := ReadBlock(tables, selector, bits, 0, eob);
      var syms: seq<int> := [];
      while true
        invariant Valid() && n <= |selector| * G_SIZE
        invariant whole == Prepend(syms, ReadBlock(tables, selector, bits, n, eob))
        decreases |selector| * G_SIZE - n
      {
        var r := Next();
        match r
        case Error => return Corrupt;
        case Pending => return NeedBits;
        case Ok(s) =>
          syms := syms + [s];
          if s == eob { return Symbols(syms, bits); }
          PrependMore(syms[..|syms| - 1], s, ReadBlock(tables, selector, bits, n, eob));
      }
    }
  }

  ghost function Prepend(syms: seq<int>, b: Block): Block {
    match b
    case Symbols(more, rest) => Symbols(syms + more, rest)
    case Corrupt => Corrupt
    case NeedBits => NeedBits
  }

  lemma PrependMore(syms: seq<int>, s: int, b: Block)
    ensures Prepend(syms, Prepend([s], b)) == Prepend(syms + [s], b)
  {
    if b.Symbols? { assert syms + ([s] + b.syms) == syms + [s] + b.syms; }
  }
}
