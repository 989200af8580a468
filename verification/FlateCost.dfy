/**
 The frequencies of a block's codes and what the block costs with them: _tr_tally, and the sums of gen_bitlen as the
 bits that compress_block sends (dep/zlib/trees.c:289-307, 407-420, 994, 1014-1037).
 */
module FlateCost {
  import FlateCode
  import opened FlateStream
  import opened FlateTree
  import opened LengthCodes
  import opened LzWindow
  import opened SymbolBuffer
  import opened TableBuilding
  import opened TableDecoding
  import opened TreeCost

  const D_CODES := 30

  /** static_ltree's lengths. */
  function StaticL(): (s: seq<int>)
    ensures |s| == 288
  {
    seq(288, n => if n <= 143 then 8 else if n <= 255 then 9 else if n <= 279 then 7 else 8)
  }

  /** static_dtree's lengths. */
  function StaticD(): (s: seq<int>)
    ensures |s| == D_CODES
  {
    seq(D_CODES, n => 5)
  }

  /** static_l_desc */
  function LDesc(): Desc { Desc(EXTRA_LBITS, 257, StaticL()) }

  /** static_d_desc */
  function DDesc(): Desc { Desc(EXTRA_DBITS, 0, StaticD()) }

  /** A literal or a match that compress_block can look up. */
  ghost predicate InRange(sym: Symbol, k: Coder)
    requires Coding(k)
  {
    match sym
    case Literal(c) => 0 <= c < 256
    case Match(dist, len) => MIN_MATCH <= len <= MAX_MATCH && 1 <= dist <= 32768
  }

  /** The code of a literal or a length. */
  ghost function LitCode(sym: Symbol, k: Coder): (s: int)
    requires Coding(k) && InRange(sym, k)
    ensures 0 <= s < L_CODES
  {
    hide *;
    CodesFit(sym, k);
    match sym
    case Literal(c) => c
    case Match(dist, len) => 257 + k.lcode[len - 3]
  }

  ghost function DistCode(sym: Symbol, k: Coder): (d: int)
    requires Coding(k) && InRange(sym, k) && sym.Match?
    ensures 0 <= d < D_CODES
  {
    hide *;
    CodesFit(sym, k);
    k.dcode[Place(sym.dist - 1)]
  }

  lemma CodesFit(sym: Symbol, k: Coder)
    requires Coding(k) && InRange(sym, k)
    ensures L_CODES == 286 && D_CODES == 30 && (sym.Literal? ==> 0 <= sym.c < 256)
    ensures sym.Match? ==> 0 <= sym.len - 3 < |k.lcode| && 0 <= Place(sym.dist - 1) < |k.dcode|
    ensures sym.Match? ==> 0 <= k.lcode[sym.len - 3] < 29 && 0 <= k.dcode[Place(sym.dist - 1)] < 30
  {
    if sym.Match? { CodedParts(k, sym.dist, sym.len); }
    hide Coding, Place;
  }

  ghost predicate AllInRange(block: seq<Symbol>, k: Coder)
    requires Coding(k)
  {
    forall i {:trigger block[i]} :: 0 <= i < |block| ==> InRange(block[i], k)
  }

  /** How often each literal and length code occurs; the end of the block occurs once. */
  ghost function LitFreq(block: seq<Symbol>, k: Coder): (f: seq<int>)
    requires Coding(k) && AllInRange(block, k)
    ensures |f| == L_CODES
  {
    if block == [] then seq(L_CODES, s => if s == END_BLOCK then 1 else 0)
    else
      var f := LitFreq(block[..|block| - 1], k);
      var s := LitCode(block[|block| - 1], k);
      f[s := f[s] + 1]
  }

  /** How often each distance code occurs. */
  ghost function DistFreq(block: seq<Symbol>, k: Coder): (f: seq<int>)
    requires Coding(k) && AllInRange(block, k)
    ensures |f| == D_CODES
  {
    if block == [] then seq(D_CODES, s => 0)
    else
      var f := DistFreq(block[..|block| - 1], k);
      match block[|block| - 1]
      case Literal(_) => f
      case Match(_, _) => var d := DistCode(block[|block| - 1], k); f[d := f[d] + 1]
  }

  /** The frequencies are those of the block. */
  ghost predicate Occurring(block: seq<Symbol>, lf: seq<int>, df: seq<int>, k: Coder)
    requires Coding(k)
  {
    && AllInRange(block, k) && L_CODES <= |lf| && D_CODES <= |df|
    && lf[..L_CODES] == LitFreq(block, k) && df[..D_CODES] == DistFreq(block, k)
  }

  lemma LitFreqIs(block: seq<Symbol>, k: Coder, sym: Symbol)
    requires Coding(k) && AllInRange(block, k) && InRange(sym, k)
    ensures AllInRange(block + [sym], k)
    ensures var f, s := LitFreq(block, k), LitCode(sym, k); LitFreq(block + [sym], k) == More(f, s)
  {
    hide Coding, InRange;
    assert (block + [sym])[..|block|] == block;
  }

  lemma DistFreqIs(block: seq<Symbol>, k: Coder, sym: Symbol)
    requires Coding(k) && AllInRange(block, k) && InRange(sym, k)
    ensures AllInRange(block + [sym], k) && (sym.Literal? ==> DistFreq(block + [sym], k) == DistFreq(block, k))
    ensures sym.Match? ==>
      var f, d := DistFreq(block, k), DistCode(sym, k); DistFreq(block + [sym], k) == More(f, d)
  {
    hide Coding, InRange;
    assert (block + [sym])[..|block|] == block;
  }

  /** No code occurs more often than there are symbols, so the counts fit their 16 bits. */
  lemma {:induction false} FewOccur(block: seq<Symbol>, k: Coder)
    requires Coding(k) && AllInRange(block, k)
    ensures forall s {:trigger LitFreq(block, k)[s]} :: 0 <= s < L_CODES ==> 0 <= LitFreq(block, k)[s] <= |block| + 1
    ensures forall s {:trigger DistFreq(block, k)[s]} :: 0 <= s < D_CODES ==> 0 <= DistFreq(block, k)[s] <= |block|
  {
    hide Coding, InRange, LitCode, DistCode;
    if block != [] {
      var less, sym := block[..|block| - 1], block[|block| - 1];
      assert block == less + [sym];
      FewOccur(less, k);
      LitFreqIs(less, k, sym);
      DistFreqIs(less, k, sym);
    }
  }

  /** init_block */
  method InitBlock(lfc: array<int>, dfc: array<int>, k: Coder)
    requires Coding(k) && lfc != dfc && L_CODES <= lfc.Length && D_CODES <= dfc.Length
    modifies lfc, dfc
    ensures Occurring([], lfc[..], dfc[..], k)
    ensures forall n {:trigger lfc[n]} :: L_CODES <= n < lfc.Length ==> lfc[n] == old(lfc[n])
    ensures forall n {:trigger dfc[n]} :: D_CODES <= n < dfc.Length ==> dfc[n] == old(dfc[n])
  {
    hide Coding;
    for n := 0 to L_CODES
      invariant dfc[..] == old(dfc[..])
      invariant forall i {:trigger lfc[i]} :: 0 <= i < n ==> lfc[i] == 0
      invariant forall i {:trigger lfc[i]} :: L_CODES <= i < lfc.Length ==> lfc[i] == old(lfc[i])
    {
      lfc[n] := 0;
    }
    for n := 0 to D_CODES
      invariant forall i {:trigger dfc[i]} :: 0 <= i < n ==> dfc[i] == 0
      invariant forall i {:trigger dfc[i]} :: D_CODES <= i < dfc.Length ==> dfc[i] == old(dfc[i])
      invariant forall i {:trigger lfc[i]} :: 0 <= i < L_CODES ==> lfc[i] == 0
      invariant forall i {:trigger lfc[i]} :: L_CODES <= i < lfc.Length ==> lfc[i] == old(lfc[i])
    {
      dfc[n] := 0;
    }
    lfc[END_BLOCK] := 1;
    assert lfc[..L_CODES] == LitFreq([], k);
    assert dfc[..D_CODES] == DistFreq([], k);
  }

  /** _tr_tally: the symbol goes into the buffer, and its codes occur once more. */
  method Tally(symBuf: array<int>, symNext0: int, lfc: array<int>, dfc: array<int>, k: Coder, dist0: int, lc: int,
               ghost block: seq<Symbol>) returns (symNext: int)
    requires Coding(k) && Occurring(block, lfc[..], dfc[..], k) && Holds(symBuf[..], symNext0, block)
    requires lfc != dfc && symBuf != lfc && symBuf != dfc && symNext0 + 3 <= symBuf.Length && |block| < 0x8000
    requires 0 <= lc < 256 && 0 <= dist0 <= 0x8000
    modifies symBuf, lfc, dfc
    ensures var sym := if dist0 == 0 then Literal(lc) else Match(dist0, lc + MIN_MATCH);
      && Occurring(block + [sym], lfc[..], dfc[..], k) && Holds(symBuf[..], symNext, block + [sym])
    ensures forall n {:trigger lfc[n]} :: L_CODES <= n < lfc.Length ==> lfc[n] == old(lfc[n])
    ensures forall n {:trigger dfc[n]} :: D_CODES <= n < dfc.Length ==> dfc[n] == old(dfc[n])
  {
    hide *;
    ghost var sym := if dist0 == 0 then Literal(lc) else Match(dist0, lc + MIN_MATCH);
    ghost var buf, lf, df := symBuf[..], lfc[..], dfc[..];
    OccurringParts(block, lf, df, k);
    IsInRange(dist0, lc, k);
    BlockHolds(buf, symNext0, block);
    symBuf[symNext0], symBuf[symNext0 + 1], symBuf[symNext0 + 2] := Byte(dist0), Byte(dist0 / 256), Byte(lc);
    symNext := symNext0 + 3;
    BytesBack(dist0, lc);
    HoldsOneMore(buf, symNext0, block, symBuf[..], sym);
    var dist := dist0;
    CodesAre(sym, k);
    CodesFit(sym, k);
    OnceMore(block, lf, df, k, sym);
    MoreIs(lf);
    MoreIs(df);
    if dist == 0 {
      lfc[lc] := (lfc[lc] + 1) % 0x10000;
      assert lfc[..] == lf[lc := lf[lc] + 1] && dfc[..] == df;
    } else {
      dist := dist - 1;
      var s, d := 257 + k.lcode[lc], k.dcode[Place(dist)];
      assert sym.len - 3 == lc && sym.dist - 1 == dist;
      lfc[s] := (lfc[s] + 1) % 0x10000;
      dfc[d] := (dfc[d] + 1) % 0x10000;
      assert lfc[..] == lf[s := lf[s] + 1] && dfc[..] == df[d := df[d] + 1];
    }
  }

  lemma BlockHolds(buf: seq<int>, n: int, block: seq<Symbol>)
    requires Holds(buf, n, block)
    ensures 0 <= n == 3 * |block| <= |buf|
  {
    hide SymbolOf;
  }

  lemma BytesBack(dist: int, lc: int)
    requires 0 <= lc < 256 && 0 <= dist <= 0x8000
    ensures SymbolOf(Byte(dist), Byte(dist / 256), Byte(lc)) ==
            if dist == 0 then Literal(lc) else Match(dist, lc + MIN_MATCH)
  {
    if dist != 0 { MatchBytes(dist, lc + MIN_MATCH); }
  }

  lemma IsInRange(dist: int, lc: int, k: Coder)
    requires Coding(k) && 0 <= lc < 256 && 0 <= dist <= 0x8000
    ensures InRange(if dist == 0 then Literal(lc) else Match(dist, lc + MIN_MATCH), k) && MIN_MATCH == 3
  {
    hide Coding;
  }

  lemma OccurringParts(block: seq<Symbol>, lf: seq<int>, df: seq<int>, k: Coder)
    requires Coding(k) && Occurring(block, lf, df, k)
    ensures 286 == L_CODES <= |lf| && 30 == D_CODES <= |df| && AllInRange(block, k)
    ensures forall s {:trigger lf[s]} :: 0 <= s < L_CODES ==> 0 <= lf[s] <= |block| + 1
    ensures forall d {:trigger df[d]} :: 0 <= d < D_CODES ==> 0 <= df[d] <= |block|
  {
    FewOccur(block, k);
    hide Coding, AllInRange, LitFreq, DistFreq;
    forall s {:trigger lf[s]} | 0 <= s < L_CODES ensures 0 <= lf[s] <= |block| + 1 {
      assert lf[s] == lf[..L_CODES][s] == LitFreq(block, k)[s];
    }
    forall d {:trigger df[d]} | 0 <= d < D_CODES ensures 0 <= df[d] <= |block| {
      assert df[d] == df[..D_CODES][d] == DistFreq(block, k)[d];
    }
  }

  lemma OnceMore(block: seq<Symbol>, lf: seq<int>, df: seq<int>, k: Coder, sym: Symbol)
    requires Coding(k) && Occurring(block, lf, df, k) && InRange(sym, k)
    ensures L_CODES <= |lf| && D_CODES <= |df|
    ensures Occurring(block + [sym], More(lf, LitCode(sym, k)), if sym.Match? then More(df, DistCode(sym, k))
      else df, k)
  {
    hide Coding, InRange, AllInRange, LitFreq, DistFreq, LitCode, DistCode;
    LitFreqIs(block, k, sym);
    DistFreqIs(block, k, sym);
    var s := LitCode(sym, k);
    assert More(lf, s)[..L_CODES] == More(lf[..L_CODES], s);
    if sym.Match? {
      var d := DistCode(sym, k);
      assert More(df, d)[..D_CODES] == More(df[..D_CODES], d);
    }
  }

  ghost function More(f: seq<int>, s: int): seq<int>
    requires 0 <= s < |f|
  {
    f[s := f[s] + 1]
  }

  lemma MoreIs(f: seq<int>)
    ensures forall s {:trigger More(f, s)} :: 0 <= s < |f| ==> More(f, s) == f[s := f[s] + 1]
  {
  }

  lemma CodesAre(sym: Symbol, k: Coder)
    requires Coding(k) && InRange(sym, k)
    ensures sym.Literal? ==> LitCode(sym, k) == sym.c
    ensures sym.Match? ==> 0 <= sym.len - 3 < |k.lcode| && 0 <= Place(sym.dist - 1) < |k.dcode|
    ensures sym.Match? ==>
      LitCode(sym, k) == 257 + k.lcode[sym.len - 3] && DistCode(sym, k) == k.dcode[Place(sym.dist - 1)]
  {
    CodesFit(sym, k);
    hide Coding, Place;
  }

  // ----- the costs --------------------------------------------------------------------------------------------------

  /** The same lengths for the first symbols, as far as there are both. */
  ghost predicate LengthsOf(lens: seq<int>, L: seq<int>, elems: int) {
    elems <= |lens| && forall s {:trigger L[s]} :: 0 <= s < |L| && s < elems ==> lens[s] == L[s]
  }

  /** The sums that gen_bitlen adds up are the bits that compress_block sends. */
  lemma {:induction false} SentBitsAre(block: seq<Symbol>, L: seq<int>, D: seq<int>, lens: seq<int>, dlens: seq<int>,
                                       k: Coder)
    requires Coding(k) && AllInRange(block, k) && AllSendable(block, L, D, k)
    requires LengthsOf(lens, L, L_CODES) && LengthsOf(dlens, D, D_CODES)
    ensures SentBits(block, L, D, k) ==
            BlockBits(LitFreq(block, k), lens, LDesc(), L_CODES) + BlockBits(DistFreq(block, k), dlens, DDesc(),
              D_CODES)
    decreases |block|
  {
    hide *;
    if block == [] {
      NoSymbols(L, D, lens, dlens, k);
    } else {
      var less, sym := block[..|block| - 1], block[|block| - 1];
      assert block == less + [sym];
      LastSymbol(less, sym, L, D, k);
      SentBitsAre(less, L, D, lens, dlens, k);
      SentBitsMore(less, sym, L, D, k);
      LitFreqIs(less, k, sym);
      DistFreqIs(less, k, sym);
      OneSymbolMore(LitFreq(less, k), DistFreq(less, k), sym, L, D, lens, dlens, k);
    }
  }

  lemma LastSymbol(less: seq<Symbol>, sym: Symbol, L: seq<int>, D: seq<int>, k: Coder)
    requires Coding(k) && AllInRange(less + [sym], k) && AllSendable(less + [sym], L, D, k)
    ensures AllInRange(less, k) && InRange(sym, k) && AllSendable(less, L, D, k) && Sendable(sym, L, D, k)
  {
    hide Coding, Sendable, InRange, Present;
    var all := less + [sym];
    assert all[|less|] == sym;
    forall i {:trigger less[i]} | 0 <= i < |less| ensures InRange(less[i], k) && Sendable(less[i], L, D, k) {
      assert all[i] == less[i];
    }
  }

  lemma {:induction false} SentBitsMore(syms: seq<Symbol>, sym: Symbol, L: seq<int>, D: seq<int>, k: Coder)
    requires Coding(k) && AllSendable(syms, L, D, k) && AllSendable(syms + [sym], L, D, k) && Sendable(sym, L, D, k)
    ensures SentBits(syms + [sym], L, D, k) == SentBits(syms, L, D, k) + SymbolBits(sym, L, D, k)
    decreases |syms|
  {
    hide Coding, Sendable, Present, SymbolBits;
    if syms == [] {
      assert ([] + [sym])[1..] == [];
    } else {
      assert (syms + [sym])[1..] == syms[1..] + [sym];
      SentBitsMore(syms[1..], sym, L, D, k);
    }
  }

  lemma NoSymbols(L: seq<int>, D: seq<int>, lens: seq<int>, dlens: seq<int>, k: Coder)
    requires Coding(k) && AllSendable([], L, D, k)
    requires LengthsOf(lens, L, L_CODES) && LengthsOf(dlens, D, D_CODES)
    ensures SentBits([], L, D, k) ==
            BlockBits(LitFreq([], k), lens, LDesc(), L_CODES) + BlockBits(DistFreq([], k), dlens, DDesc(), D_CODES)
  {
    hide Coding, BlockBits, LDesc, DDesc, XBits;
    var f := seq(L_CODES, s => 0);
    NothingCosts(f, lens, LDesc(), L_CODES);
    NothingCosts(DistFreq([], k), dlens, DDesc(), D_CODES);
    OneMore(f, lens, LDesc(), END_BLOCK, L_CODES);
    assert LitFreq([], k) == f[END_BLOCK := f[END_BLOCK] + 1];
    ExtraBits(0, 0);
    assert lens[END_BLOCK] == L[END_BLOCK];
  }

  lemma {:induction false} NothingCosts(freq: seq<int>, lens: seq<int>, d: Desc, n: nat)
    requires n <= |freq| && n <= |lens| && forall y {:trigger freq[y]} :: 0 <= y < n ==> freq[y] == 0
    ensures BlockBits(freq, lens, d, n) == 0
    decreases n
  {
    if n > 0 { NothingCosts(freq, lens, d, n - 1); }
  }

  lemma ExtraBits(c: int, d: int)
    requires 0 <= c < 29 && 0 <= d < D_CODES
    ensures |EXTRA_LBITS| == 29 && |EXTRA_DBITS| == 30
    ensures XBits(LDesc(), 257 + c) == EXTRA_LBITS[c] && XBits(DDesc(), d) == EXTRA_DBITS[d]
    ensures forall s {:trigger XBits(LDesc(), s)} :: 0 <= s < 257 ==> XBits(LDesc(), s) == 0
  {
  }

  lemma OneSymbolMore(lf: seq<int>, df: seq<int>, sym: Symbol, L: seq<int>, D: seq<int>, lens: seq<int>,
    dlens: seq<int>,
                      k: Coder)
    requires Coding(k) && InRange(sym, k) && Sendable(sym, L, D, k) && |lf| == L_CODES && |df| == D_CODES
    requires LengthsOf(lens, L, L_CODES) && LengthsOf(dlens, D, D_CODES)
    ensures L_CODES <= |lens| && D_CODES <= |dlens| && 0 <= L_CODES
    ensures BlockBits(More(lf, LitCode(sym, k)), lens, LDesc(), L_CODES)
      + (if sym.Match? then BlockBits(More(df, DistCode(sym, k)), dlens, DDesc(), D_CODES)
         else BlockBits(df, dlens, DDesc(), D_CODES))
      == BlockBits(lf, lens, LDesc(), L_CODES) + BlockBits(df, dlens, DDesc(), D_CODES) + SymbolBits(sym, L, D, k)
  {
    hide *;
    CodesFit(sym, k);
    LengthsAgree(lens, L, L_CODES);
    LengthsAgree(dlens, D, D_CODES);
    var s := LitCode(sym, k);
    MoreBits(lf, lens, LDesc(), s, L_CODES);
    CodeBits(sym, L, D, lens, dlens, k);
    if sym.Match? { MoreBits(df, dlens, DDesc(), DistCode(sym, k), D_CODES); }
  }

  lemma MoreBits(freq: seq<int>, lens: seq<int>, d: Desc, y: int, n: nat)
    requires n == |freq| && n <= |lens| && 0 <= y < n
    ensures BlockBits(More(freq, y), lens, d, n) == BlockBits(freq, lens, d, n) + lens[y] + XBits(d, y)
  {
    OneMore(freq, lens, d, y, n);
    hide BlockBits, XBits;
  }

  /** A symbol is sent in the lengths and the extra bits of its codes. */
  lemma CodeBits(sym: Symbol, L: seq<int>, D: seq<int>, lens: seq<int>, dlens: seq<int>, k: Coder)
    requires Coding(k) && InRange(sym, k) && Sendable(sym, L, D, k)
    requires LengthsOf(lens, L, L_CODES) && LengthsOf(dlens, D, D_CODES)
    ensures L_CODES <= |lens| && D_CODES <= |dlens|
    ensures SymbolBits(sym, L, D, k) == lens[LitCode(sym, k)] + XBits(LDesc(), LitCode(sym, k))
      + if sym.Match? then dlens[DistCode(sym, k)] + XBits(DDesc(), DistCode(sym, k)) else 0
  {
    hide *;
    CodesAre(sym, k);
    CodesFit(sym, k);
    LengthsAgree(lens, L, L_CODES);
    LengthsAgree(dlens, D, D_CODES);
    var s := LitCode(sym, k);
    match sym {
      case Literal(c) =>
        ExtraBits(0, 0);
        LiteralBitsAre(c, L, D, k);
        assert L[c] == lens[c];
      case Match(dist, len) =>
        var d := DistCode(sym, k);
        ExtraBits(s - 257, d);
        MatchBitsAre(dist, len, L, D, k);
        assert L[s] == lens[s] && D[d] == dlens[d];
    }
  }

  lemma LengthsAgree(lens: seq<int>, L: seq<int>, elems: int)
    requires LengthsOf(lens, L, elems)
    ensures elems <= |lens| && forall s {:trigger L[s]} :: 0 <= s < |L| && s < elems ==> L[s] == lens[s]
  {
  }

  lemma LiteralBitsAre(c: int, L: seq<int>, D: seq<int>, k: Coder)
    requires Coding(k) && Sendable(Literal(c), L, D, k)
    ensures 0 <= c < |L| && SymbolBits(Literal(c), L, D, k) == L[c]
  {
    PresentThere(L, c);
    hide Coding;
  }

  lemma MatchBitsAre(dist: int, len: int, L: seq<int>, D: seq<int>, k: Coder)
    requires Coding(k) && Sendable(Match(dist, len), L, D, k)
    ensures 0 <= len - 3 < |k.lcode| && 0 <= Place(dist - 1) < |k.dcode|
    ensures var c, d := k.lcode[len - 3], k.dcode[Place(dist - 1)];
      && 0 <= c < 29 == |EXTRA_LBITS| && 0 <= d < 30 == |EXTRA_DBITS| && 0 <= 257 + c < |L| && d < |D|
      && SymbolBits(Match(dist, len), L, D, k) == L[257 + c] + EXTRA_LBITS[c] + D[d] + EXTRA_DBITS[d]
  {
    MatchCodes(dist, len, L, D, k);
    PresentThere(L, 257 + k.lcode[len - 3]);
    PresentThere(D, k.dcode[Place(dist - 1)]);
    hide Coding, Sendable, Place;
  }

  /** With the static lengths everything in range can be sent. */
  lemma StaticSendable(block: seq<Symbol>, k: Coder)
    requires Coding(k) && AllInRange(block, k)
    ensures AllSendable(block, StaticL(), StaticD(), k)
  {
    StaticPresent();
    hide Coding, InRange, Present, StaticL, StaticD;
    forall i {:trigger block[i]} | 0 <= i < |block| ensures Sendable(block[i], StaticL(), StaticD(), k) {
      OneStatic(block[i], k);
    }
  }

  lemma OneStatic(sym: Symbol, k: Coder)
    requires Coding(k) && InRange(sym, k)
    requires forall s {:trigger Present(StaticL(), s)} :: 0 <= s < 288 ==> Present(StaticL(), s)
    requires forall s {:trigger Present(StaticD(), s)} :: 0 <= s < D_CODES ==> Present(StaticD(), s)
    ensures Sendable(sym, StaticL(), StaticD(), k)
  {
    if sym.Match? { CodedParts(k, sym.dist, sym.len); }
    hide Coding, Present, StaticL, StaticD;
  }

  lemma StaticPresent()
    ensures forall s {:trigger Present(StaticL(), s)} :: 0 <= s < 288 ==> Present(StaticL(), s)
    ensures forall s {:trigger Present(StaticD(), s)} :: 0 <= s < D_CODES ==> Present(StaticD(), s)
  {
    assert FlateCode.Lengths(StaticL()) && FlateCode.Lengths(StaticD());
    forall s {:trigger Present(StaticL(), s)} | 0 <= s < 288 ensures Present(StaticL(), s) { IsPresent(StaticL(), s); }
    forall s {:trigger Present(StaticD(), s)} | 0 <= s < D_CODES ensures Present(StaticD(), s) {
      IsPresent(StaticD(), s);
    }
  }

  lemma StaticTrees()
    ensures LDesc().stree == StaticL() && DDesc().stree == StaticD() && |StaticL()| == 288
      && |StaticD()| == D_CODES == 30
    ensures LengthsOf(StaticL(), StaticL(), L_CODES) && LengthsOf(StaticD(), StaticD(), D_CODES) && L_CODES == 286
  {
  }

  lemma OccurringIs(block: seq<Symbol>, lf: seq<int>, df: seq<int>, k: Coder)
    requires Coding(k) && Occurring(block, lf, df, k)
    ensures AllInRange(block, k) && L_CODES <= |lf| && D_CODES <= |df| && 0 <= L_CODES
    ensures lf[..L_CODES] == LitFreq(block, k) && df[..D_CODES] == DistFreq(block, k)
  {
  }
}
