/**
 From what deflate sends to the text it came from: blocks of any symbols that make a legal stream are counted, coded,
 read back from their bits and taken by inflate (dep/zlib/trees.c:615-697, 1014-1092; dep/zlib/inflate.c:1062-1287).
 */
module FlateText {
  import BitLengths
  import opened DeflateTrees
  import opened FlateBlock
  import opened FlateCode
  import opened FlateCost
  import opened FlateStream
  import opened FlateTree
  import opened LengthCodes
  import opened LzWindow
  import opened SymbolBuffer
  import opened TableDecoding
  import IT = InflateTable
  import Inflate

  /** All symbols of some blocks. */
  function Join(blocks: seq<seq<Symbol>>): seq<Symbol> {
    if blocks == [] then [] else Join(blocks[..|blocks| - 1]) + blocks[|blocks| - 1]
  }

  lemma JoinOn(blocks: seq<seq<Symbol>>, i: nat)
    requires i < |blocks|
    ensures Join(blocks[..i + 1]) == Join(blocks[..i]) + blocks[i]
  {
    assert blocks[..i + 1][..i] == blocks[..i];
  }

  /** Symbols of a legal stream have codes. */
  lemma {:induction false} LegalInRange(syms: seq<Symbol>, maxDist: int, k: Coder)
    requires Coding(k) && Legal(syms, maxDist) && maxDist <= 32768
    ensures AllInRange(syms, k)
    decreases |syms|
  {
    hide Coding, Expand;
    if syms != [] {
      var less := syms[..|syms| - 1];
      LegalInRange(less, maxDist, k);
      forall i {:trigger syms[i]} | 0 <= i < |syms| ensures InRange(syms[i], k) {
        if i < |less| { assert syms[i] == less[i]; }
      }
    }
  }

  lemma PartInRange(all: seq<Symbol>, before: seq<Symbol>, part: seq<Symbol>, behind: seq<Symbol>, k: Coder)
    requires Coding(k) && AllInRange(all, k) && all == before + part + behind
    ensures AllInRange(part, k)
  {
    hide Coding, InRange;
    forall i {:trigger part[i]} | 0 <= i < |part| ensures InRange(part[i], k) {
      assert part[i] == all[|before| + i];
    }
  }

  lemma {:induction false} JoinAround(blocks: seq<seq<Symbol>>, i: nat) returns (behind: seq<Symbol>)
    requires i < |blocks|
    ensures Join(blocks) == Join(blocks[..i]) + blocks[i] + behind
    decreases |blocks|
  {
    var n := |blocks| - 1;
    if i == n {
      behind := [];
    } else {
      var less := JoinAround(blocks[..n], i);
      assert blocks[..n][..i] == blocks[..i];
      behind := less + blocks[n];
    }
  }

  /** The frequencies of a block count every code that it needs. */
  lemma OccurringCounts(block: seq<Symbol>, lf: seq<int>, df: seq<int>, k: Coder)
    requires Coding(k) && Occurring(block, lf, df, k)
    ensures L_CODES <= |lf| && D_CODES <= |df| && Counted(block, lf, df, k)
  {
    OccurringIs(block, lf, df, k);
    var f, d := lf[..L_CODES], df[..D_CODES];
    EndOccurs(block, k);
    assert lf[END_BLOCK] == f[END_BLOCK];
    forall i {:trigger block[i]} | 0 <= i < |block| ensures CountedOne(block[i], lf, df, k) {
      Occurs(block, k, i);
      CodesAre(block[i], k);
      CodesFit(block[i], k);
      OneCounted(block[i], lf, df, k);
    }
  }

  lemma {:induction false} EndOccurs(block: seq<Symbol>, k: Coder)
    requires Coding(k) && AllInRange(block, k)
    ensures LitFreq(block, k)[END_BLOCK] >= 1
    decreases |block|
  {
    hide Coding, InRange, LitCode;
    if block != [] { EndOccurs(block[..|block| - 1], k); }
  }

  /** A symbol of the block has its codes counted. */
  lemma {:induction false} Occurs(block: seq<Symbol>, k: Coder, i: int)
    requires Coding(k) && AllInRange(block, k) && 0 <= i < |block|
    ensures LitFreq(block, k)[LitCode(block[i], k)] >= 1
    ensures block[i].Match? ==> DistFreq(block, k)[DistCode(block[i], k)] >= 1
    decreases |block|
  {
    hide Coding, InRange, LitCode, DistCode;
    var less := block[..|block| - 1];
    FewOccur(less, k);
    if i < |less| {
      assert less[i] == block[i];
      Occurs(less, k, i);
    }
  }

  lemma OneCounted(sym: Symbol, lf: seq<int>, df: seq<int>, k: Coder)
    requires Coding(k) && InRange(sym, k) && L_CODES <= |lf| && D_CODES <= |df|
    requires lf[LitCode(sym, k)] != 0 && (sym.Match? ==> df[DistCode(sym, k)] != 0)
    ensures CountedOne(sym, lf, df, k)
  {
    CodesAre(sym, k);
    CodesFit(sym, k);
    hide Coding, LitCode, DistCode, Place;
  }

  /** The arrays' frequencies fit 16 bits. */
  lemma RangesFrom(builder: TreeBuilder, block: seq<Symbol>, lfc: array<int>, dfc: array<int>, k: Coder)
    requires builder.DepthsFit() && Coding(k) && Occurring(block, lfc[..], dfc[..], k) && |block| < 0x8000
    requires forall n {:trigger lfc[n]} :: L_CODES <= n < lfc.Length ==> lfc[n] == 0
    requires forall n {:trigger dfc[n]} :: D_CODES <= n < dfc.Length ==> dfc[n] == 0
    ensures builder.Ranges(lfc) && builder.Ranges(dfc)
  {
    OccurringParts(block, lfc[..], dfc[..], k);
    hide Coding, Occurring;
    forall x {:trigger lfc[x]} | 0 <= x < lfc.Length ensures 0 <= lfc[x] < 0x10000 { assert lfc[x] == lfc[..][x]; }
    forall x {:trigger dfc[x]} | 0 <= x < dfc.Length ensures 0 <= dfc[x] < 0x10000 { assert dfc[x] == dfc[..][x]; }
  }

  lemma ArraysMade(builder: TreeBuilder, fc: array<int>, dl: array<int>)
    requires builder.heap != builder.depth && builder.heap != builder.blCount && builder.depth != builder.blCount
    requires fc != dl && fc !in {builder.heap, builder.depth, builder.blCount}
      && dl !in {builder.heap, builder.depth, builder.blCount}
    requires builder.heap.Length == builder.depth.Length == BitLengths.HEAP_SIZE
      && builder.blCount.Length == MAX_BITS + 1
    ensures builder.Arrays(fc, dl)
  {
  }

  /** All symbols of a block are tallied. */
  method TallyAll(k: Coder, block: seq<Symbol>)
    returns (symBuf: array<int>, symNext: int, lfc: array<int>, dfc: array<int>)
    requires Coding(k) && AllInRange(block, k) && |block| < 0x8000
    ensures fresh(symBuf) && fresh(lfc) && fresh(dfc) && lfc != dfc && symBuf != lfc && symBuf != dfc
    ensures Occurring(block, lfc[..], dfc[..], k) && Holds(symBuf[..], symNext, block)
    ensures 0 <= L_CODES && lfc.Length == 2 * L_CODES && 0 <= D_CODES && dfc.Length == 2 * D_CODES
    ensures forall n {:trigger lfc[n]} :: L_CODES <= n < lfc.Length ==> lfc[n] == 0
    ensures forall n {:trigger dfc[n]} :: D_CODES <= n < dfc.Length ==> dfc[n] == 0
  {
    hide *;
    Sizes();
    lfc, dfc := new int[2 * L_CODES](_ => 0), new int[2 * D_CODES](_ => 0);
    symBuf := new int[3 * |block|];
    InitBlock(lfc, dfc, k);
    symNext := 0;
    HoldsNothing(symBuf[..]);
    for i := 0 to |block|
      invariant Occurring(block[..i], lfc[..], dfc[..], k) && Holds(symBuf[..], symNext, block[..i])
      invariant forall n {:trigger lfc[n]} :: L_CODES <= n < lfc.Length ==> lfc[n] == 0
      invariant forall n {:trigger dfc[n]} :: D_CODES <= n < dfc.Length ==> dfc[n] == 0
    {
      BlockHolds(symBuf[..], symNext, block[..i]);
      NextInRange(block, i, k);
      assert block[..i + 1] == block[..i] + [block[i]];
      var (dist, lc) := Tallying(block[i]);
      symNext := Tally(symBuf, symNext, lfc, dfc, k, dist, lc, block[..i]);
    }
    assert block[..|block|] == block;
  }

  /** A block is tallied, coded and read back. */
  method BlockThrough(k: Coder, block: seq<Symbol>)
    returns (ok: bool, out: seq<Symbol>, ghost L: seq<int>, ghost D: seq<int>)
    requires Coding(k) && AllInRange(block, k) && |block| < 0x8000
    ensures ok ==> out == block
    ensures Complete(L, Lens) && Complete(D, Dists) && Lengths(L) && Lengths(D)
    ensures !ok ==> TooLarge(L, Lens, 9) || TooLarge(D, Dists, 6)
  {
    hide *;
    Sizes();
    var symBuf, symNext, lfc, dfc := TallyAll(k, block);
    var ldl, ddl, work := new int[2 * L_CODES](_ => 0), new int[2 * D_CODES](_ => 0), new int[L_CODES];
    var builder := new TreeBuilder();
    ArraysMade(builder, lfc, ldl);
    ArraysMade(builder, dfc, ddl);
    RangesFrom(builder, block, lfc, dfc, k);
    OccurringCounts(block, lfc[..], dfc[..], k);
    var lt, dt := new Entry[IT.ENOUGH_LENS](_ => Entry(0, 0, 0)), new Entry[IT.ENOUGH_DISTS](_ => Entry(0, 0, 0));
    var r, sent, optLen, staticLen, cut;
    ok, r, sent, optLen, staticLen, cut, L, D :=
      ThereAndBack(builder, lfc, ldl, dfc, ddl, symBuf, symNext, k, lt, dt, work, 0, 0, block);
    out := if ok then r.syms else [];
  }

  /** The text from the blocks that were sent, unless some complete lengths make too large a table. */
  method TextBack(blocks: seq<seq<Symbol>>, size: int)
    returns (ok: bool, text: seq<int>, ghost L: seq<int>, ghost D: seq<int>)
    requires Legal(Join(blocks), size) && 0 < size <= 32768
    requires forall i {:trigger blocks[i]} :: 0 <= i < |blocks| ==> |blocks[i]| < 0x8000
    ensures ok ==> text == Expand(Join(blocks))
    ensures !ok ==> Lengths(L) && Lengths(D) && Complete(L, Lens) && Complete(D, Dists)
    ensures !ok ==> TooLarge(L, Lens, 9) || TooLarge(D, Dists, 6)
  {
    hide *;
    var lcode, lbase, dcode, dbase := new int[256], new int[29], new int[512], new int[30];
    MakeLengthCodes(lcode, lbase);
    MakeDistanceCodes(dcode, dbase);
    var k := Coder(lcode[..], lbase[..], dcode[..], dbase[..]);
    CodingFrom(k);
    LegalInRange(Join(blocks), size, k);
    var syms := [];
    L, D := [], [];
    NothingJoined();
    for i := 0 to |blocks|
      invariant syms == Join(blocks[..i])
    {
      ghost var behind := JoinAround(blocks, i);
      PartInRange(Join(blocks), Join(blocks[..i]), blocks[i], behind, k);
      JoinOn(blocks, i);
      var out;
      ok, out, L, D := BlockThrough(k, blocks[i]);
      if !ok {
        text := [];
        return;
      }
      syms := syms + out;
    }
    assert blocks[..|blocks|] == blocks;
    text := Inflate.InflateInPieces(size, syms);
    ok := true;
  }

  lemma NothingJoined()
    ensures Join([]) == []
  {
  }

  lemma CodingFrom(k: Coder)
    requires LengthsBelow(k.lcode, k.lbase, 256, 29) && DistancesBelow(k.dcode, k.dbase, 32768, 30)
    ensures Coding(k)
  {
  }

  lemma HoldsNothing(buf: seq<int>)
    ensures Holds(buf, 0, [])
  {
  }

  /** The arguments of _tr_tally for a symbol. */
  function Tallying(sym: Symbol): (int, int) {
    match sym
    case Literal(c) => (0, c)
    case Match(dist, len) => (dist, len - MIN_MATCH)
  }

  lemma NextInRange(block: seq<Symbol>, i: int, k: Coder)
    requires Coding(k) && AllInRange(block, k) && 0 <= i < |block|
    ensures var (dist, lc) := Tallying(block[i]);
      && 0 <= lc < 256 && 0 <= dist <= 0x8000
      && block[i] == if dist == 0 then Literal(lc) else Match(dist, lc + MIN_MATCH)
  {
    hide Coding;
    assert InRange(block[i], k);
  }
}
