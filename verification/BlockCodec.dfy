/**
 One block of bzip2 end to end: sorting and the choice of origPtr on the way in
 (dep/bzip2/blocksort.c:1031-1091), and the stages put together.
 */
module BlockCodec {
  import opened Permutations
  import opened Rotations
  import BW = BurrowsWheeler
  import Fallback = FallbackSort
  import Quick = FallbackQuicksort
  import MTF = MoveToFront
  import Enc = MtfEncoder
  import Huff = HuffmanLengths
  import Canon = CanonicalCode
  import opened Powers
  import Stream = SymbolStream
  import RL = RunLength

  /** What the block sorter leaves: the sorted rotations and the place of rotation 0 among them. */
  ghost predicate SortedBlock(b: seq<int>, ptr: seq<int>, origPtr: int) {
    && IsPermutation(ptr) && SortsRotations(b, ptr) && 0 <= origPtr < |b| && |ptr| == |b| && ptr[origPtr] == 0
  }

  /** The search for rotation 0; assertion 1003 cannot fail. */
  method FindOrigin(ptr: array<int>) returns (origPtr: int)
    requires ptr.Length > 0 && IsPermutation(ptr[..])
    ensures 0 <= origPtr < ptr.Length && ptr[origPtr] == 0
  {
    Onto(ptr[..], 0);
    ghost var k :| 0 <= k < ptr.Length && ptr[..][k] == 0;
    origPtr := -1;
    var i := 0;
    while i < ptr.Length
      invariant 0 <= i <= k
    {
      if ptr[i] == 0 { origPtr := i; break; }
      i := i + 1;
    }
    assert origPtr != -1;
  }

  /** The block sorter, with the fallback sort. */
  method BlockSort(fmap: array<int>, eclass: array<int>, eclass8: array<int>, bhtab: array<bool>, nblock: int)
    returns (origPtr: int)
    requires fmap != eclass && fmap != eclass8 && eclass != eclass8
    requires fmap.Length == eclass.Length == eclass8.Length == nblock && 0 < nblock <= Quick.MAX_BLOCK
    requires bhtab.Length >= 32 * (3 + nblock / 32) && Bytes(eclass8[..])
    modifies fmap, eclass, eclass8, bhtab
    ensures SortedBlock(old(eclass8[..]), fmap[..], origPtr) && eclass8[..] == old(eclass8[..])
  {
    hide SortsRotations;
    Fallback.Sort(fmap, eclass, eclass8, bhtab, nblock);
    origPtr := FindOrigin(fmap);
  }

  // ----- from the block to symbols and back --------------------------------------------------------------------

  lemma {:induction false} WalkPrefix(l: seq<int>, p: int, k: nat, m: nat)
    requires 0 <= p < |l| && k <= m
    ensures BW.Walk(l, p, m)[..k] == BW.Walk(l, p, k)
    decreases k
  {
    hide *;
    if k > 0 {
      var q := BW.Thread(l, p);
      BW.WalkUnfolds(l, p, m);
      BW.WalkUnfolds(l, p, k);
      WalkPrefix(l, q, k - 1, m - 1);
      assert ([l[q]] + BW.Walk(l, q, m - 1))[..k] == [l[q]] + BW.Walk(l, q, m - 1)[..k - 1];
    }
  }

  lemma {:induction false} WalkBytes(l: seq<int>, p: int, k: nat)
    requires 0 <= p < |l| && Bytes(l)
    ensures Bytes(BW.Walk(l, p, k))
    decreases k
  {
    if k > 0 { WalkBytes(l, BW.Thread(l, p), k - 1); }
  }

  lemma ColumnBytes(b: seq<int>, ptr: seq<int>)
    requires Bytes(b) && IsPermutation(ptr) && |ptr| == |b|
    ensures Bytes(BW.LastColumn(b, ptr))
    ensures forall i :: 0 <= i < |b| ==> BW.LastColumn(b, ptr)[i] in b
  {
  }

  /** The two byte maps, made from the same set of used bytes. */
  ghost predicate Maps(u: seq<bool>, b: seq<int>, unseqToSeq: seq<int>, seqToUnseq: seq<int>) {
    && |u| == |unseqToSeq| == |seqToUnseq| == 256
    && (forall c {:trigger u[c]} :: 0 <= c < 256 && c in b ==> u[c])
    && (forall c {:trigger u[c]} :: 0 <= c < 256 && u[c] ==>
         unseqToSeq[c] == Enc.UsedBelow(u, c) < Enc.UsedBelow(u, 256))
    && (forall c {:trigger u[c]} :: 0 <= c < 256 && u[c] ==> seqToUnseq[Enc.UsedBelow(u, c)] == c)
  }

  /** Numbering the column and looking the numbers up again gives the column. */
  lemma MapsInvert(u: seq<bool>, b: seq<int>, enc: seq<int>, dec: seq<int>, ptr: seq<int>)
    requires Bytes(b) && b != [] && IsPermutation(ptr) && |ptr| == |b| && Maps(u, b, enc, dec)
    ensures Bytes(BW.LastColumn(b, ptr)) && MTF.Within(BW.LastColumn(b, ptr), 0, 256)
    ensures 0 < Enc.UsedBelow(u, 256) <= 256
    ensures MTF.Within(Enc.Numbered(BW.LastColumn(b, ptr), enc), 0, Enc.UsedBelow(u, 256))
    ensures forall k {:trigger BW.LastColumn(b, ptr)[k]} :: 0 <= k < |b| ==>
      0 <= enc[BW.LastColumn(b, ptr)[k]] < 256 && dec[enc[BW.LastColumn(b, ptr)[k]]] == BW.LastColumn(b, ptr)[k]
  {
    ColumnBytes(b, ptr);
    var l := BW.LastColumn(b, ptr);
    assert u[l[0]];
    forall k {:trigger l[k]} | 0 <= k < |l| ensures 0 <= enc[l[k]] < Enc.UsedBelow(u, 256) && dec[enc[l[k]]] == l[k] {
      assert u[l[k]];
    }
  }

  /** The symbols of a column: only the last is the end marker. */
  lemma {:induction false} MarkerIsLast(r: seq<int>, z: nat, eob: int)
    requires 1 < eob <= 257 && MTF.Within(r, 0, eob - 1)
    ensures var s := MTF.Symbols(r, z, eob); s[|s| - 1] == eob && forall i {:trigger s[i]} :: 0 <= i < |s| - 1 ==>
      s[i] != eob
    decreases |r|
  {
    if r != [] {
      if r[0] == 0 {
        MarkerIsLast(r[1..], z + 1, eob);
      } else {
        MarkerIsLast(r[1..], 0, eob);
        var d, t := MTF.RunDigits(z), MTF.Symbols(r[1..], 0, eob);
        assert MTF.Symbols(r, z, eob) == d + [r[0] + 1] + t;
      }
    }
  }

  /**
   The symbols for a column of sequence numbers lie in the alphabet, end with the only end marker, and decode to the
   column.
   */
  ghost predicate SymbolsRead(col: seq<int>, n: nat, max: int) {
    && 0 < n <= 256 && MTF.Within(col, 0, n) && MTF.AllIn(col, MTF.Identity(n))
    && var syms := MTF.Symbols(MTF.RanksOf(MTF.Identity(n), col), 0, n + 1);
    && MTF.Within(syms, 0, n + 2)
    && syms[|syms| - 1] == n + 1 && (forall i {:trigger syms[i]} :: 0 <= i < |syms| - 1 ==> syms[i] != n + 1)
    && MTF.Decode(MTF.Identity(256), [], syms, n + 1, max) == MTF.Column(col)
  }

  lemma ColumnSymbols(col: seq<int>, n: nat, max: int)
    requires 0 < n <= 256 && |col| <= max < MTF.RUN_LIMIT && MTF.Within(col, 0, n)
    ensures SymbolsRead(col, n, max)
  {
    hide MTF.Decode, MTF.Symbols, MTF.RanksOf;
    MTF.StageRoundTrip(col, n, max);
    MarkerIsLast(MTF.RanksOf(MTF.Identity(n), col), 0, n + 1);
  }

  /** The symbols sent for column l decode to sequence numbers that the decoder's map turns back into l. */
  ghost predicate SymbolsGive(l: seq<int>, n: nat, enc: seq<int>, dec: seq<int>, max: int) {
    && |enc| == |dec| == 256 && MTF.Within(l, 0, 256)
    && SymbolsRead(Enc.Numbered(l, enc), n, max)
    && forall k {:trigger l[k]} :: 0 <= k < |l| ==> 0 <= enc[l[k]] < 256 && dec[enc[l[k]]] == l[k]
  }

  lemma SymbolsRoundTrip(b: seq<int>, ptr: seq<int>, u: seq<bool>, enc: seq<int>, dec: seq<int>, max: int)
    requires Bytes(b) && b != [] && IsPermutation(ptr) && |ptr| == |b| && Maps(u, b, enc, dec)
      && |b| <= max < MTF.RUN_LIMIT
    ensures SymbolsGive(BW.LastColumn(b, ptr), Enc.UsedBelow(u, 256), enc, dec, max)
  {
    MapsInvert(u, b, enc, dec, ptr);
    var l, n := BW.LastColumn(b, ptr), Enc.UsedBelow(u, 256);
    assert |enc| == |dec| == 256 && |l| == |b|;
    hide IsPermutation, Bytes, Maps, SymbolsRead, BW.LastColumn, Enc.UsedBelow;
    ColumnSymbols(Enc.Numbered(l, enc), n, max);
  }

  /** What the inverse transform delivers starts with the block. */
  ghost predicate Delivers(l: seq<int>, origPtr: int, b: seq<int>, extra: nat) {
    && 0 <= origPtr < |l|
    && Bytes(BW.Walk(l, origPtr, |b| + extra)) && BW.Walk(l, origPtr, |b| + extra)[..|b|] == b
  }

  lemma Delivered(b: seq<int>, ptr: seq<int>, origPtr: int, extra: nat)
    requires Bytes(b) && SortedBlock(b, ptr, origPtr)
    ensures Delivers(BW.LastColumn(b, ptr), origPtr, b, extra)
  {
    ColumnBytes(b, ptr);
    BW.WalkInverts(b, ptr, origPtr);
    var l := BW.LastColumn(b, ptr);
    assert 0 <= origPtr < |l| == |b|;
    hide *;
    WalkPrefix(l, origPtr, |b|, |b| + extra);
    WalkBytes(l, origPtr, |b| + extra);
    DeliversMeans(l, origPtr, b, extra);
  }

  lemma DeliversMeans(l: seq<int>, origPtr: int, b: seq<int>, extra: nat)
    requires 0 <= origPtr < |l| && Bytes(BW.Walk(l, origPtr, |b| + extra))
      && BW.Walk(l, origPtr, |b| + extra)[..|b|] == b
    ensures Delivers(l, origPtr, b, extra)
  {
  }

  /** Expanding what walking the column delivers gives this text, and finds nothing corrupt. */
  ghost predicate Expands(l: seq<int>, origPtr: int, n: nat, text: seq<int>) {
    && 0 <= origPtr < |l|
    && var data := BW.Walk(l, origPtr, n + 2); Bytes(data) && RL.Unpack(data, n, 0) == RL.Unpacked(text, false)
  }

  lemma DeliveredExpands(l: seq<int>, origPtr: int, runs: seq<RL.Run>)
    requires RL.Tidy(runs) && Delivers(l, origPtr, RL.Storage(runs), 2)
    ensures Expands(l, origPtr, |RL.Storage(runs)|, RL.Text(runs))
  {
    hide BW.Walk, RL.Tidy, RL.Storage, RL.Text, RL.Unpack;
    var b := RL.Storage(runs);
    var data := BW.Walk(l, origPtr, |b| + 2);
    assert data[0..|b|] == b;
    RL.UnpackInverts(data, |b|, 0, runs);
  }

  /**
   The whole block. The text of any tidy runs that fit a block, stored, sorted, numbered, moved to front and
   sent as symbols, comes back: the symbols decode to the column, walking the column delivers the block,
   and expanding the delivered bytes gives the text.
   */
  lemma BlockRoundTrip(runs: seq<RL.Run>, ptr: seq<int>, origPtr: int, u: seq<bool>, enc: seq<int>, dec: seq<int>,
                       max: int)
    requires RL.Tidy(runs) && runs != [] && |RL.Storage(runs)| <= max < MTF.RUN_LIMIT
    requires SortedBlock(RL.Storage(runs), ptr, origPtr) && Maps(u, RL.Storage(runs), enc, dec)
    ensures SymbolsGive(BW.LastColumn(RL.Storage(runs), ptr), Enc.UsedBelow(u, 256), enc, dec, max)
    ensures Expands(BW.LastColumn(RL.Storage(runs), ptr), origPtr, |RL.Storage(runs)|, RL.Text(runs))
  {
    var b := RL.Storage(runs);
    hide SortsRotations, IsPermutation, RL.Tidy, Maps, RL.Storage, Expands, Delivers, SymbolsGive;
    SymbolsRoundTrip(b, ptr, u, enc, dec, max);
    Delivered(b, ptr, origPtr, 2);
    DeliveredExpands(BW.LastColumn(b, ptr), origPtr, runs);
  }

  // ----- lengths from the encoder suit the decoder ---------------------------------------------------------------

  lemma {:induction false} KraftScales(len: seq<int>, m: nat, k: nat)
    requires forall s {:trigger len[s]} :: 0 <= s < |len| ==> 0 <= len[s] <= m
    ensures Canon.Kraft(len, m + k) == Canon.Kraft(len, m) * Pow2(k)
    decreases |len|
  {
    hide Pow2;
    if len != [] {
      var t, c := len[..|len| - 1], len[|len| - 1];
      KraftScales(t, m, k);
      Pow2Sum(m - c, k);
      assert m + k - c == (m - c) + k;
      Canon.Distribute(Canon.Kraft(t, m), Pow2(m - c), Pow2(k));
    }
  }

  /** Decoding tables built from lengths that MakeCodeLengths produced read every symbol of the alphabet. */
  lemma LengthsSuit(len: seq<int>, maxLen: nat, t: Stream.Table, hi: int)
    requires Huff.Complete(len, maxLen) && maxLen <= Canon.LONGEST && 2 <= |len| <= Canon.MAX_ALPHA_SIZE
    requires Stream.Shaped(t) && Canon.Tables(t.limit, t.base, t.perm, len, t.minLen, hi)
    ensures Stream.Decodes(t, len, hi)
  {
    KraftScales(len, maxLen, Canon.LONGEST - maxLen);
    Pow2Sum(maxLen, Canon.LONGEST - maxLen);
  }

  // ----- from the text through the bits and back -------------------------------------------------------------------

  /** What the decoder makes of a block's bits: the text and the bits behind it, or a failure of some stage. */
  datatype Reading = Back(text: RL.Unpacked, rest: seq<int>) | Failed

  /** Numbers mapped to bytes, the transform inverted and the runs expanded. */
  ghost function FromColumn(col: seq<int>, dec: seq<int>, origPtr: int, rest: seq<int>): Reading
    requires |dec| == 256
  {
    if !MTF.Within(col, 0, 256) then Failed
    else
      var l := Enc.Numbered(col, dec);
      if !(Bytes(l) && 0 <= origPtr < |l|) then Failed
      else
        WalkBytes(l, origPtr, |l| + 2);
        Back(RL.Unpack(BW.Walk(l, origPtr, |l| + 2), |l|, 0), rest)
  }

  /** The decoder's stages from bits to text, for an alphabet of n used bytes. */
  ghost function ReadText(tables: seq<Stream.Table>, selector: seq<int>, bits: seq<int>, dec: seq<int>, n: nat,
                          origPtr: int, max: int): Reading
    requires forall g :: 0 <= g < |tables| ==> Stream.Shaped(tables[g])
    requires forall g :: 0 <= g < |selector| ==> 0 <= selector[g] < |tables|
    requires |dec| == 256 && n <= 256
  {
    match Stream.ReadBlock(tables, selector, bits, 0, n + 1)
    case Symbols(syms, rest) =>
      if !MTF.Within(syms, 0, n + 2) then Failed
      else
        (match MTF.Decode(MTF.Identity(256), [], syms, n + 1, max)
         case Column(col) => FromColumn(col, dec, origPtr, rest)
         case _ => Failed)
    case _ => Failed
  }

  /**
   Each code has lengths that MakeCodeLengths can give, at most cap, and tables made from them; selectors name codes.
   */
  ghost predicate Coding(lens: seq<seq<int>>, tables: seq<Stream.Table>, selector: seq<int>, cap: nat, alphaSize: nat) {
    && |lens| == |tables| && cap <= Canon.LONGEST && 2 <= alphaSize <= Canon.MAX_ALPHA_SIZE
    && (forall g :: 0 <= g < |selector| ==> 0 <= selector[g] < |lens|)
    && (forall g {:trigger lens[g]} {:trigger tables[g]} :: 0 <= g < |lens| ==>
         && |lens[g]| == alphaSize && Huff.Complete(lens[g], cap) && Stream.Shaped(tables[g])
         && exists hi :: Canon.Tables(tables[g].limit, tables[g].base, tables[g].perm, lens[g], tables[g].minLen, hi))
  }

  lemma OneReadable(lens: seq<seq<int>>, tables: seq<Stream.Table>, selector: seq<int>, cap: nat, alphaSize: nat,
                    g: nat)
    requires Coding(lens, tables, selector, cap, alphaSize) && g < |lens|
    ensures Stream.Readable(tables[g], lens[g])
  {
    hide Huff.Complete, Canon.Tables, Stream.Decodes, Stream.Shaped;
    assert |lens[g]| == alphaSize;
    var hi :| Canon.Tables(tables[g].limit, tables[g].base, tables[g].perm, lens[g], tables[g].minLen, hi);
    LengthsSuit(lens[g], cap, tables[g], hi);
  }

  lemma CodingCodes(lens: seq<seq<int>>, tables: seq<Stream.Table>, selector: seq<int>, cap: nat, alphaSize: nat)
    requires Coding(lens, tables, selector, cap, alphaSize)
    ensures Stream.Codes(lens, tables, selector)
  {
    hide Huff.Complete, Canon.Tables, Stream.Readable;
    forall g {:trigger tables[g]} {:trigger lens[g]} | 0 <= g < |lens| ensures Stream.Readable(tables[g], lens[g]) {
      OneReadable(lens, tables, selector, cap, alphaSize, g);
    }
  }

  lemma CodedMore(lens: seq<seq<int>>, selector: seq<int>, syms: seq<int>, n: nat)
    requires syms != [] && Stream.GroupOf(n) < |selector| && 0 <= selector[Stream.GroupOf(n)] < |lens|
    requires 0 <= syms[0] < |lens[selector[Stream.GroupOf(n)]]| && lens[selector[Stream.GroupOf(n)]][syms[0]] >= 0
    requires Stream.Coded(lens, selector, syms[1..], n + 1)
    ensures Stream.Coded(lens, selector, syms, n)
  {
  }

  /** Every symbol of the alphabet has a code, and there is a selector for every group of fifty. */
  lemma {:induction false} AllCoded(lens: seq<seq<int>>, tables: seq<Stream.Table>, selector: seq<int>, cap: nat,
                                    alphaSize: nat, syms: seq<int>, n: nat)
    requires Coding(lens, tables, selector, cap, alphaSize) && MTF.Within(syms, 0, alphaSize)
      && n + |syms| <= Stream.G_SIZE * |selector|
    ensures Stream.Coded(lens, selector, syms, n)
    decreases |syms|
  {
    hide Coding, Stream.Coded;
    if syms == [] {
      Stream.WrittenNothing(lens, selector, syms, n, []);
    } else {
      AllCoded(lens, tables, selector, cap, alphaSize, syms[1..], n + 1);
      CodedHere(lens, tables, selector, cap, alphaSize, Stream.GroupOf(n), syms[0]);
      CodedMore(lens, selector, syms, n);
    }
  }

  lemma CodedHere(lens: seq<seq<int>>, tables: seq<Stream.Table>, selector: seq<int>, cap: nat, alphaSize: nat, g: nat,
                  s: int)
    requires Coding(lens, tables, selector, cap, alphaSize) && g < |selector| && 0 <= s < alphaSize
    ensures 0 <= selector[g] < |lens| && s < |lens[selector[g]]| && lens[selector[g]][s] >= 0
  {
    hide Canon.Tables, Stream.Shaped;
    assert Huff.Complete(lens[selector[g]], cap);
  }

  /** The symbols sent for column l. */
  ghost function Sent(l: seq<int>, n: nat, enc: seq<int>): seq<int>
    requires SymbolsCount(l, n, enc)
  {
    MTF.Symbols(MTF.RanksOf(MTF.Identity(n), Enc.Numbered(l, enc)), 0, n + 1)
  }

  ghost predicate SymbolsCount(l: seq<int>, n: nat, enc: seq<int>) {
    && |enc| == 256 && MTF.Within(l, 0, 256) && 0 < n <= 256
    && MTF.Within(Enc.Numbered(l, enc), 0, n) && MTF.AllIn(Enc.Numbered(l, enc), MTF.Identity(n))
  }

  lemma SentReads(l: seq<int>, n: nat, enc: seq<int>, dec: seq<int>, max: int)
    requires SymbolsGive(l, n, enc, dec, max)
    ensures SymbolsCount(l, n, enc) && |dec| == 256
    ensures MTF.Within(Sent(l, n, enc), 0, n + 2) && Sent(l, n, enc) != []
      && Sent(l, n, enc)[|Sent(l, n, enc)| - 1] == n + 1
    ensures forall i {:trigger Sent(l, n, enc)[i]} :: 0 <= i < |Sent(l, n, enc)| - 1 ==> Sent(l, n, enc)[i] != n + 1
    ensures MTF.Decode(MTF.Identity(256), [], Sent(l, n, enc), n + 1, max) == MTF.Column(Enc.Numbered(l, enc))
  {
    hide MTF.Decode, MTF.Symbols, MTF.RanksOf, MTF.AllIn;
  }

  lemma ColumnBack(l: seq<int>, n: nat, enc: seq<int>, dec: seq<int>, max: int, origPtr: int, rest: seq<int>,
                   text: seq<int>)
    requires SymbolsGive(l, n, enc, dec, max) && Bytes(l) && Expands(l, origPtr, |l|, text) && SymbolsCount(l, n, enc)
    ensures |dec| == 256 && FromColumn(Enc.Numbered(l, enc), dec, origPtr, rest) == Back(RL.Unpacked(text, false), rest)
  {
    hide SymbolsRead, RL.Unpack, BW.Walk;
    assert Enc.Numbered(Enc.Numbered(l, enc), dec) == l;
  }

  lemma StoredColumn(runs: seq<RL.Run>, ptr: seq<int>, origPtr: int)
    requires RL.Tidy(runs) && SortedBlock(RL.Storage(runs), ptr, origPtr)
    ensures Bytes(BW.LastColumn(RL.Storage(runs), ptr)) && |BW.LastColumn(RL.Storage(runs), ptr)| == |RL.Storage(runs)|
  {
    hide SortsRotations;
    ColumnBytes(RL.Storage(runs), ptr);
  }

  lemma ReadTextIs(tables: seq<Stream.Table>, selector: seq<int>, bits: seq<int>, dec: seq<int>, n: nat, origPtr: int,
                   max: int,
                   syms: seq<int>, rest: seq<int>, col: seq<int>)
    requires forall g :: 0 <= g < |tables| ==> Stream.Shaped(tables[g])
    requires forall g :: 0 <= g < |selector| ==> 0 <= selector[g] < |tables|
    requires |dec| == 256 && n <= 256 && MTF.Within(syms, 0, n + 2)
    requires Stream.ReadBlock(tables, selector, bits, 0, n + 1) == Stream.Symbols(syms, rest)
    requires MTF.Decode(MTF.Identity(256), [], syms, n + 1, max) == MTF.Column(col)
    ensures ReadText(tables, selector, bits, dec, n, origPtr, max) == FromColumn(col, dec, origPtr, rest)
  {
    hide Stream.ReadBlock, MTF.Decode, Stream.Shaped, FromColumn;
  }

  lemma SelectorsName(lens: seq<seq<int>>, tables: seq<Stream.Table>, selector: seq<int>, cap: nat, alphaSize: nat)
    requires Coding(lens, tables, selector, cap, alphaSize)
    ensures forall g :: 0 <= g < |selector| ==> 0 <= selector[g] < |tables|
  {
    hide Huff.Complete, Canon.Tables, Stream.Shaped;
  }

  /**
   The symbols of column l have codes, and from their bits the decoder's stages make this text, with nothing corrupt.
   */
  ghost predicate ComesBack(l: seq<int>, n: nat, enc: seq<int>, dec: seq<int>, max: int, origPtr: int, text: seq<int>,
                            lens: seq<seq<int>>, tables: seq<Stream.Table>, selector: seq<int>, tail: seq<int>) {
    && SymbolsCount(l, n, enc) && |dec| == 256
    && (forall g :: 0 <= g < |tables| ==> Stream.Shaped(tables[g]))
    && (forall g :: 0 <= g < |selector| ==> 0 <= selector[g] < |tables|)
    && (|Sent(l, n, enc)| <= Stream.G_SIZE * |selector| ==>
         && Stream.Coded(lens, selector, Sent(l, n, enc), 0)
         && ReadText(tables, selector, Stream.Written(lens, selector, Sent(l, n, enc), 0) + tail, dec, n, origPtr, max)
            == Back(RL.Unpacked(text, false), tail))
  }

  /** The bits of a column's symbols give back the column, and the column the text. */
  lemma ThroughBits(l: seq<int>, n: nat, enc: seq<int>, dec: seq<int>, max: int, origPtr: int, text: seq<int>,
                    lens: seq<seq<int>>, tables: seq<Stream.Table>, selector: seq<int>, cap: nat, tail: seq<int>)
    requires SymbolsGive(l, n, enc, dec, max) && Bytes(l) && Expands(l, origPtr, |l|, text)
      && Coding(lens, tables, selector, cap, n + 2)
    ensures ComesBack(l, n, enc, dec, max, origPtr, text, lens, tables, selector, tail)
  {
    hide SymbolsGive, Bytes, Expands, Coding, Sent, Stream.Coded, Stream.Written, Stream.Shaped, Stream.ReadBlock,
      Stream.Codes, MTF.Decode,
         MTF.Identity, MTF.Within, ReadText, FromColumn, Enc.Numbered;
    SentReads(l, n, enc, dec, max);
    CodingCodes(lens, tables, selector, cap, n + 2);
    SelectorsName(lens, tables, selector, cap, n + 2);
    Stream.CodesShaped(lens, tables, selector);
    ColumnBack(l, n, enc, dec, max, origPtr, tail, text);
    if |Sent(l, n, enc)| <= Stream.G_SIZE * |selector| {
      AllCoded(lens, tables, selector, cap, n + 2, Sent(l, n, enc), 0);
      Stream.BlockRoundTrip(lens, tables, selector, Sent(l, n, enc), 0, n + 1, tail);
      ReadTextIs(tables, selector, Stream.Written(lens, selector, Sent(l, n, enc), 0) + tail, dec, n, origPtr, max,
          Sent(l, n, enc), tail, Enc.Numbered(l,
              enc));
    }
  }

  /**
   A whole block, through the bits. The text of any tidy runs that fit a block, stored, sorted, numbered, moved
   to front and written with complete codes of at most cap bits chosen per group by any selectors, is what the
   decoder's stages make of the bits, nothing corrupt, whatever bits follow.
   */
  lemma TextRoundTrip(runs: seq<RL.Run>, ptr: seq<int>, origPtr: int, u: seq<bool>, enc: seq<int>, dec: seq<int>,
                      max: int,
                      lens: seq<seq<int>>, tables: seq<Stream.Table>, selector: seq<int>, cap: nat, tail: seq<int>)
    requires RL.Tidy(runs) && runs != [] && |RL.Storage(runs)| <= max < MTF.RUN_LIMIT
    requires SortedBlock(RL.Storage(runs), ptr, origPtr) && Maps(u, RL.Storage(runs), enc, dec)
    requires Coding(lens, tables, selector, cap, Enc.UsedBelow(u, 256) + 2)
    ensures ComesBack(BW.LastColumn(RL.Storage(runs), ptr), Enc.UsedBelow(u, 256), enc, dec, max, origPtr,
      RL.Text(runs), lens, tables, selector, tail)
  {
    var b := RL.Storage(runs);
    hide SortsRotations, RL.Tidy, Maps, RL.Storage, Expands, SymbolsGive, Coding, BW.LastColumn, Enc.UsedBelow,
      ComesBack;
    BlockRoundTrip(runs, ptr, origPtr, u, enc, dec, max);
    StoredColumn(runs, ptr, origPtr);
    ThroughBits(BW.LastColumn(b, ptr), Enc.UsedBelow(u, 256), enc, dec, max, origPtr, RL.Text(runs), lens, tables,
        selector, cap, tail);
  }
}
