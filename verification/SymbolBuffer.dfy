/**
 The symbol buffer of a deflate block: three bytes a symbol, written by _tr_tally_lit and _tr_tally_dist
 (dep/zlib/deflate.h:321-339) and read back by compress_block (dep/zlib/trees.c:1053-1084).
 */
module SymbolBuffer {
  import opened LzWindow

  /** A byte of an unsigned value, as a cast to uch takes it. */
  function Byte(x: int): int {
    x % 256
  }

  /** How three bytes are read back: distance 0 marks a literal. */
  function SymbolOf(b0: int, b1: int, b2: int): Symbol {
    var dist := b0 + b1 * 256;
    if dist == 0 then Literal(b2) else Match(dist, b2 + MIN_MATCH)
  }

  /** The first n bytes of the buffer hold the symbols of the block. */
  ghost predicate Holds(buf: seq<int>, n: int, block: seq<Symbol>) {
    n == 3 * |block| && n <= |buf| &&
    forall i {:trigger block[i]} ::
      0 <= i < |block| ==> SymbolOf(buf[3 * i], buf[3 * i + 1], buf[3 * i + 2]) == block[i]
  }

  lemma HoldsOneMore(buf: seq<int>, n: int, block: seq<Symbol>, buf': seq<int>, sym: Symbol)
    requires Holds(buf, n, block) && n + 3 <= |buf| == |buf'|
    requires forall i {:trigger buf'[i]} :: 0 <= i < n ==> buf'[i] == buf[i]
    requires SymbolOf(buf'[n], buf'[n + 1], buf'[n + 2]) == sym
    ensures Holds(buf', n + 3, block + [sym])
  {
    forall i | 0 <= i < |block| ensures SymbolOf(buf'[3 * i], buf'[3 * i + 1], buf'[3 * i + 2]) == block[i] {
      assert buf'[3 * i] == buf[3 * i] && buf'[3 * i + 1] == buf[3 * i + 1] && buf'[3 * i + 2] == buf[3 * i + 2];
    }
  }

  /** Splitting a distance and a length into three bytes loses nothing. */
  lemma MatchBytes(dist: int, len: int)
    requires 1 <= dist < 0x10000 && MIN_MATCH <= len <= MAX_MATCH
    ensures SymbolOf(Byte(dist), Byte(dist / 256), Byte(len - MIN_MATCH)) == Match(dist, len)
  {
    assert dist / 256 < 256;
  }

  /** The loop that reads a block back. */
  method ReadBlock(symBuf: array<int>, symNext: int, ghost block: seq<Symbol>) returns (out: seq<Symbol>)
    requires Holds(symBuf[..], symNext, block)
    ensures out == block
  {
    out := [];
    var sx := 0;
    while sx < symNext
      invariant sx == 3 * |out| && sx <= symNext && out == block[..|out|]
    {
      assert SymbolOf(symBuf[..][3 * |out|], symBuf[..][3 * |out| + 1], symBuf[..][3 * |out| + 2]) == block[|out|];
      assert block[..|out| + 1] == block[..|out|] + [block[|out|]];
      var dist := symBuf[sx] + symBuf[sx + 1] * 256;
      var lc := symBuf[sx + 2];
      sx := sx + 3;
      out := out + [if dist == 0 then Literal(lc) else Match(dist, lc + MIN_MATCH)];
    }
    assert block[..|out|] == block;
  }
}
