/**
 The symbol generator of dep/bzip2/compress.c: byte map, move-to-front list and run digits, proved to
 write exactly the specified symbols and their frequencies.
 */
module MtfEncoder {
  import opened Counting
  import opened MoveToFront
  import opened Permutations
  import BW = BurrowsWheeler

  // ----- the maps between bytes and sequence numbers ----------------------------------------------------

  /** How many bytes below c are in use: the sequence number of c. */
  ghost function UsedBelow(inUse: seq<bool>, c: nat): (n: nat)
    requires c <= |inUse|
    ensures n <= c
  {
    if c == 0 then 0 else UsedBelow(inUse, c - 1) + if inUse[c - 1] then 1 else 0
  }

  lemma {:induction false} UsedBelowGrows(inUse: seq<bool>, c: nat, d: nat)
    requires c <= d <= |inUse|
    ensures UsedBelow(inUse, c) <= UsedBelow(inUse, d)
    ensures c < d && inUse[c] ==> UsedBelow(inUse, c) < UsedBelow(inUse, d)
    decreases d
  {
    if c < d { UsedBelowGrows(inUse, c, d - 1); }
  }

  method MakeMapsE(inUse: array<bool>, unseqToSeq: array<int>) returns (nInUse: nat)
    requires inUse.Length == 256 && unseqToSeq.Length == 256
    modifies unseqToSeq
    ensures nInUse == UsedBelow(inUse[..], 256)
    ensures forall c :: 0 <= c < 256 && inUse[c] ==> unseqToSeq[c] == UsedBelow(inUse[..], c) < nInUse
  {
    nInUse := 0;
    var i := 0;
    while i < 256
      invariant 0 <= i <= 256 && nInUse == UsedBelow(inUse[..], i)
      invariant forall c :: 0 <= c < i && inUse[c] ==> unseqToSeq[c] == UsedBelow(inUse[..], c) < nInUse
    {
      if inUse[i] {
        unseqToSeq[i] := nInUse;
        nInUse := nInUse + 1;
      }
      i := i + 1;
    }
  }

  /** The decoder's map goes the other way: number k back to the byte that has it. */
  method MakeMapsD(inUse: array<bool>, seqToUnseq: array<int>) returns (nInUse: nat)
    requires inUse.Length == 256 && seqToUnseq.Length == 256
    modifies seqToUnseq
    ensures nInUse == UsedBelow(inUse[..], 256)
    ensures forall c :: 0 <= c < 256 && inUse[c] ==> seqToUnseq[UsedBelow(inUse[..], c)] == c
  {
    ghost var u := inUse[..];
    nInUse := 0;
    var i := 0;
    while i < 256
      invariant 0 <= i <= 256 && nInUse == UsedBelow(u, i) && inUse[..] == u
      invariant forall c {:trigger u[c]} :: 0 <= c < i && u[c] ==> seqToUnseq[UsedBelow(u, c)] == c
    {
      if inUse[i] {
        forall c | 0 <= c < i && u[c] ensures UsedBelow(u, c) < nInUse { UsedBelowGrows(u, c, i); }
        seqToUnseq[nInUse] := i;
        nInUse := nInUse + 1;
      }
      i := i + 1;
    }
  }

  // ----- writing symbols ----------------------------------------------------------------------------------

  /** Frequencies agree with what has been written. */
  ghost predicate Tallied(freq: seq<int>, written: seq<int>, eob: int) {
    eob < |freq| && forall v :: 0 <= v <= eob ==> freq[v] == Count(written, v)
  }

  lemma TalliedOneMore(freq: seq<int>, written: seq<int>, eob: int, v: int)
    requires Tallied(freq, written, eob) && 0 <= v <= eob
    ensures Tallied(freq[v := freq[v] + 1], written + [v], eob)
  {
    var w := written + [v];
    assert w[..|w| - 1] == written;
  }

  /** Appends one symbol and counts it. */
  method Emit(mtfv: array<int>, mtfFreq: array<int>, wr: nat, v: int, ghost eob: int) returns (wr': nat)
    requires mtfv != mtfFreq && wr < mtfv.Length && 0 <= v <= eob && Tallied(mtfFreq[..], mtfv[..wr], eob)
    modifies mtfv, mtfFreq
    ensures wr' == wr + 1 && mtfv[..wr'] == old(mtfv[..wr]) + [v]
    ensures Tallied(mtfFreq[..], mtfv[..wr'], eob)
  {
    TalliedOneMore(mtfFreq[..], mtfv[..wr], eob, v);
    ghost var f := mtfFreq[..];
    mtfv[wr] := v;
    wr' := wr + 1;
    mtfFreq[v] := mtfFreq[v] + 1;
    assert mtfFreq[..] == f[v := f[v] + 1];
    assert mtfv[..wr'] == old(mtfv[..wr]) + [v];
  }

  /** The digit written for a pending count y, one less than the run, and what is left. */
  lemma NextDigit(y: nat, d: int, left: nat)
    requires d == (if y % 2 == 1 then RUNB else RUNA) && left == (if y < 2 then 0 else (y - 2) / 2 + 1)
    ensures RunDigits(y + 1) == [d] + RunDigits(left)
  {
    assert left == y / 2;
    assert (y + 1) % 2 == 1 <==> y % 2 != 1;
    DigitsAre(y + 1);
  }

  lemma DigitsAre(z: nat)
    requires z > 0
    ensures RunDigits(z) == [if z % 2 == 1 then RUNA else RUNB] + RunDigits((z - 1) / 2)
  {
  }

  lemma DigitDone(digits: seq<int>, done: seq<int>, d: int, y: nat, left: nat)
    requires digits == done + RunDigits(y + 1) && RunDigits(y + 1) == [d] + RunDigits(left)
    ensures digits == done + [d] + RunDigits(left)
  {
    hide RunDigits;
    assert done + ([d] + RunDigits(left)) == done + [d] + RunDigits(left);
  }

  /** The digits of a pending run. */
  method FlushRun(mtfv: array<int>, mtfFreq: array<int>, wr0: nat, zPend0: nat, ghost eob: int) returns (wr: nat)
    requires mtfv != mtfFreq && wr0 + zPend0 <= mtfv.Length && 1 < eob && Tallied(mtfFreq[..], mtfv[..wr0], eob)
    modifies mtfv, mtfFreq
    ensures wr0 <= wr <= wr0 + zPend0 && mtfv[..wr] == old(mtfv[..wr0]) + RunDigits(zPend0)
    ensures Tallied(mtfFreq[..], mtfv[..wr], eob)
  {
    hide Tallied, RunDigits;
    wr := wr0;
    ghost var digits := RunDigits(zPend0);
    ghost var done: seq<int> := [];
    assert done + digits == digits;
    if zPend0 > 0 {
      var zPend := zPend0 - 1;
      while true
        invariant 0 <= zPend && wr0 <= wr && wr == wr0 + |done|
        invariant digits == done + RunDigits(zPend + 1)
        invariant mtfv[..wr] == old(mtfv[..wr0]) + done
        invariant Tallied(mtfFreq[..], mtfv[..wr], eob)
        decreases zPend
      {
        ghost var d := if zPend % 2 == 1 then RUNB else RUNA;
        ghost var left := if zPend < 2 then 0 else (zPend - 2) / 2 + 1;
        NextDigit(zPend, d, left);
        DigitDone(digits, done, d, zPend, left);
        if zPend % 2 == 1 {
          wr := Emit(mtfv, mtfFreq, wr, RUNB, eob);
        } else {
          wr := Emit(mtfv, mtfFreq, wr, RUNA, eob);
        }
        done := done + [d];
        if zPend < 2 {
          NoDigits();
          break;
        }
        zPend := (zPend - 2) / 2;
      }
      assert done == digits;
    } else {
      NoDigits();
    }
  }

  lemma NoDigits()
    ensures RunDigits(0) == []
  {
  }

  /** Brings the entry x to the front by shifting the entries before it up. */
  method ShiftToFront(yy: array<int>, n: nat, x: int) returns (j: nat)
    requires n <= yy.Length && x in yy[..n] && yy[0] != x
    modifies yy
    ensures 0 < j < n && old(yy[..n])[j] == x && x !in old(yy[..n])[..j]
    ensures yy[..n] == ToFront(old(yy[..n]), j)
  {
    ghost var y0 := yy[..n];
    var rtmp := yy[1];
    yy[1] := yy[0];
    j := 1;
    while x != rtmp
      invariant 1 <= j < n && rtmp == y0[j] && x !in y0[..j]
      invariant forall m :: 1 <= m <= j ==> yy[m] == y0[m - 1]
      invariant forall m :: j < m < n ==> yy[m] == y0[m]
      decreases n - j
    {
      StillBehind(y0, j, x);
      j := j + 1;
      var rtmp2 := rtmp;
      rtmp := yy[j];
      yy[j] := rtmp2;
    }
    yy[0] := rtmp;
    ShiftedIsToFront(y0, yy[..n], j);
  }

  lemma StillBehind(y0: seq<int>, j: nat, x: int)
    requires j < |y0| && x in y0 && x !in y0[..j] && y0[j] != x
    ensures j + 1 < |y0| && x !in y0[..j + 1]
  {
    assert y0[..j + 1] == y0[..j] + [y0[j]];
    assert y0 == y0[..j + 1] + y0[j + 1..];
  }

  lemma ShiftedIsToFront(y0: seq<int>, y: seq<int>, j: nat)
    requires j < |y0| == |y| && y[0] == y0[j] && (forall m :: 1 <= m <= j ==> y[m] == y0[m - 1])
      && (forall m :: j < m < |y| ==> y[m] == y0[m])
    ensures y == ToFront(y0, j)
  {
    forall m | 0 <= m < |y| ensures y[m] == ToFront(y0, j)[m] {}
  }

  // ----- the whole generator --------------------------------------------------------------------------------

  /** The column with each byte replaced by its sequence number. */
  ghost function Numbered(col: seq<int>, map_: seq<int>): (s: seq<int>)
    requires |map_| == 256 && Within(col, 0, 256)
    ensures |s| == |col| && forall i :: 0 <= i < |s| ==> s[i] == map_[col[i]]
  {
    seq(|col|, i requires 0 <= i < |col| => map_[col[i]])
  }

  /** What is still to be written, given the list, the pending run and the rest of the column. */
  ghost function Rest(list: seq<int>, rest: seq<int>, z: nat, eob: int): seq<int>
    requires AllIn(rest, list) && |list| <= 256
  {
    Symbols(RanksOf(list, rest), z, eob)
  }

  lemma RestZero(list: seq<int>, rest: seq<int>, z: nat, eob: int)
    requires rest != [] && AllIn(rest, list) && 0 < |list| <= 256 && list[0] == rest[0]
    ensures AllIn(rest[1..], list) && Rest(list, rest, z, eob) == Rest(list, rest[1..], z + 1, eob)
  {
    assert ToFront(list, 0) == list;
    assert RanksOf(list, rest) == [0] + RanksOf(list, rest[1..]);
  }

  lemma RestRank(list: seq<int>, rest: seq<int>, z: nat, eob: int, k: int)
    requires rest != [] && AllIn(rest, list) && |list| <= 256 && Distinct(list)
    requires 0 < k < |list| && list[k] == rest[0]
    ensures AllIn(rest[1..], ToFront(list, k)) && Distinct(ToFront(list, k))
    ensures Rest(list, rest, z, eob) == RunDigits(z) + [k + 1] + Rest(ToFront(list, k), rest[1..], 0, eob)
  {
    PositionOf(list, k);
    AllInToFront(rest, list, k);
    ToFrontKeeps(list, k);
    assert RanksOf(list, rest) == [k] + RanksOf(ToFront(list, k), rest[1..]);
  }

  lemma RestEnd(list: seq<int>, z: nat, eob: int)
    requires |list| <= 256
    ensures AllIn([], list) && Rest(list, [], z, eob) == RunDigits(z) + [eob]
  {
  }

  /** State of the generator after i entries of the column. */
  ghost predicate Generating(written: seq<int>, list: seq<int>, col: seq<int>, i: int, z: int, all: seq<int>,
                             eob: int) {
    && 0 <= i <= |col| && 0 <= z && |written| + z <= i
    && |list| <= 256 && Distinct(list) && AllIn(col[i..], list)
    && written + Rest(list, col[i..], z, eob) == all
  }

  /** Zero frequencies for every symbol, and the list 0..nInUse-1. */
  method StartLists(mtfFreq: array<int>, yy: array<int>, nInUse: nat)
    requires mtfFreq != yy && mtfFreq.Length == 258 && yy.Length == 256 && nInUse <= 256
    modifies mtfFreq, yy
    ensures Tallied(mtfFreq[..], [], nInUse + 1)
    ensures yy[..nInUse] == Identity(nInUse)
  {
    var v := 0;
    while v <= nInUse + 1
      invariant 0 <= v <= nInUse + 2
      invariant forall k :: 0 <= k < v ==> mtfFreq[k] == 0
    {
      mtfFreq[v] := 0;
      v := v + 1;
    }
    v := 0;
    while v < nInUse
      invariant 0 <= v <= nInUse
      invariant forall k :: 0 <= k <= nInUse + 1 ==> mtfFreq[k] == 0
      invariant forall k :: 0 <= k < v ==> yy[k] == k
    {
      yy[v] := v;
      v := v + 1;
    }
  }

  /** col is the last column for sorted order p of block b, numbered by m. */
  ghost predicate Source(b: seq<int>, p: seq<int>, m: seq<int>, col: seq<int>) {
    && |b| == |p| == |col| && |m| == 256 && Within(p, 0, |b|) && Within(b, 0, 256)
    && Within(BW.LastColumn(b, p), 0, 256) && col == Numbered(BW.LastColumn(b, p), m)
  }

  /**
   Reads the column from the sorted order and writes the symbols; the write position never passes the
   read position, which is what lets the original reuse the sorted order's memory for them.
   */
  method Generate(block: array<int>, ptr: array<int>, unseqToSeq: array<int>, nInUse: nat, mtfv: array<int>,
                  mtfFreq: array<int>,
                  ghost col: seq<int>)
    returns (nMTF: nat)
    requires mtfv != mtfFreq && mtfv != block && mtfv != ptr && mtfv != unseqToSeq
    requires mtfFreq != block && mtfFreq != ptr && mtfFreq != unseqToSeq
    requires 0 < nInUse <= 256 && unseqToSeq.Length == 256
    requires block.Length == ptr.Length && mtfv.Length == block.Length + 1 && mtfFreq.Length == 258
    requires |col| == block.Length && Source(block[..], ptr[..], unseqToSeq[..], col) && Within(col, 0, nInUse)
    modifies mtfv, mtfFreq
    ensures nMTF <= |col| + 1
    ensures AllIn(col, Identity(nInUse)) && mtfv[..nMTF] == Symbols(RanksOf(Identity(nInUse), col), 0, nInUse + 1)
    ensures Tallied(mtfFreq[..], mtfv[..nMTF], nInUse + 1)
  {
    hide *;
    InIdentity(col, nInUse);
    var eob := nInUse + 1;
    var yy := new int[256];
    StartLists(mtfFreq, yy, nInUse);
    ghost var all := Rest(Identity(nInUse), col, 0, eob);
    assert mtfv[..0] == [];
    GeneratingStarts(Identity(nInUse), col, all, eob);
    var wr, zPend := WriteColumn(block, ptr, unseqToSeq, nInUse, mtfv, mtfFreq, yy, col, all);
    GeneratingEnds(mtfv[..wr], yy[..nInUse], col, zPend, all, eob);
    ghost var w0 := mtfv[..wr];
    wr := FlushRun(mtfv, mtfFreq, wr, zPend, eob);
    nMTF := Emit(mtfv, mtfFreq, wr, eob, eob);
    RestMeans(Identity(nInUse), col, eob);
    assert w0 + RunDigits(zPend) + [eob] == w0 + (RunDigits(zPend) + [eob]);
  }

  /** The sequence number of the byte before rotation ptr[i]. */
  method ColumnEntry(block: array<int>, ptr: array<int>, unseqToSeq: array<int>, i: nat, ghost col: seq<int>)
    returns (lli: int)
    requires unseqToSeq.Length == 256 && i < ptr.Length == block.Length
    requires Source(block[..], ptr[..], unseqToSeq[..], col)
    ensures i < |col| && lli == col[i]
  {
    var j := ptr[i] - 1;
    if j < 0 { j := j + block.Length; }
    lli := unseqToSeq[block[j]];
  }

  /** The main loop, over the whole column. */
  method WriteColumn(block: array<int>, ptr: array<int>, unseqToSeq: array<int>, nInUse: nat, mtfv: array<int>,
                     mtfFreq: array<int>,
                     yy: array<int>, ghost col: seq<int>, ghost all: seq<int>)
    returns (wr: nat, zPend: nat)
    requires mtfv != mtfFreq && mtfv != block && mtfv != ptr && mtfv != unseqToSeq && yy != mtfv && yy != mtfFreq
    requires mtfFreq != block && mtfFreq != ptr && mtfFreq != unseqToSeq && yy != block && yy != ptr && yy != unseqToSeq
    requires 0 < nInUse <= 256 && unseqToSeq.Length == 256 && yy.Length == 256
    requires block.Length == ptr.Length && mtfv.Length == block.Length + 1
    requires |col| == block.Length && Source(block[..], ptr[..], unseqToSeq[..], col)
    requires Generating([], yy[..nInUse], col, 0, 0, all, nInUse + 1)
    requires Tallied(mtfFreq[..], [], nInUse + 1)
    modifies mtfv, mtfFreq, yy
    ensures wr + zPend <= |col| && Generating(mtfv[..wr], yy[..nInUse], col, |col|, zPend, all, nInUse + 1)
    ensures Tallied(mtfFreq[..], mtfv[..wr], nInUse + 1)
  {
    hide *;
    ghost var eob := nInUse + 1;
    wr, zPend := 0, 0;
    var i := 0;
    assert mtfv[..0] == [];
    while i < block.Length
      invariant 0 <= i <= |col| && wr + zPend <= i && Source(block[..], ptr[..], unseqToSeq[..], col)
      invariant Generating(mtfv[..wr], yy[..nInUse], col, i, zPend, all, eob)
      invariant Tallied(mtfFreq[..], mtfv[..wr], eob)
    {
      var lli := ColumnEntry(block, ptr, unseqToSeq, i, col);
      wr, zPend := WriteEntry(mtfv, mtfFreq, yy, wr, zPend, lli, nInUse, col, i, all, eob);
      i := i + 1;
    }
  }

  lemma RestMeans(list: seq<int>, col: seq<int>, eob: int)
    requires AllIn(col, list) && |list| <= 256
    ensures Within(RanksOf(list, col), 0, 256) && Rest(list, col, 0, eob) == Symbols(RanksOf(list, col), 0, eob)
  {
  }

  lemma GeneratingStarts(list: seq<int>, col: seq<int>, all: seq<int>, eob: int)
    requires |list| <= 256 && Distinct(list) && AllIn(col, list) && all == Rest(list, col, 0, eob)
    ensures Generating([], list, col, 0, 0, all, eob)
  {
    assert col[0..] == col;
  }

  lemma GeneratingFront(written: seq<int>, list: seq<int>, col: seq<int>, i: int, z: int, all: seq<int>, eob: int)
    requires Generating(written, list, col, i, z, all, eob) && i < |col|
    ensures col[i] in list
  {
    assert col[i..][0] == col[i];
  }

  lemma GeneratingZero(written: seq<int>, list: seq<int>, col: seq<int>, i: int, z: int, all: seq<int>, eob: int)
    requires Generating(written, list, col, i, z, all, eob) && i < |col| && list != [] && list[0] == col[i]
    ensures Generating(written, list, col, i + 1, z + 1, all, eob)
  {
    hide Distinct, AllIn, Rest;
    assert col[i..][1..] == col[i + 1..] && col[i..][0] == col[i];
    RestZero(list, col[i..], z, eob);
  }

  lemma GeneratingRank(written: seq<int>, list: seq<int>, col: seq<int>, i: int, z: int, all: seq<int>, eob: int,
                       k: int)
    requires Generating(written, list, col, i, z, all, eob) && i < |col| && 0 < k < |list| && list[k] == col[i]
    ensures Generating(written + RunDigits(z) + [k + 1], ToFront(list, k), col, i + 1, 0, all, eob)
  {
    hide Distinct, AllIn, Rest, RunDigits, ToFront;
    assert col[i..][1..] == col[i + 1..] && col[i..][0] == col[i];
    RestRank(list, col[i..], z, eob, k);
    var tail := Rest(ToFront(list, k), col[i + 1..], 0, eob);
    assert written + (RunDigits(z) + [k + 1] + tail) == written + RunDigits(z) + [k + 1] + tail;
  }

  lemma GeneratingEnds(written: seq<int>, list: seq<int>, col: seq<int>, z: int, all: seq<int>, eob: int)
    requires Generating(written, list, col, |col|, z, all, eob)
    ensures z >= 0 && all == written + (RunDigits(z) + [eob])
  {
    assert col[|col|..] == [];
    RestEnd(list, z, eob);
  }

  /** One entry: rank 0 lengthens the pending run; any other rank flushes the run, shifts the list and is written. */
  method WriteEntry(mtfv: array<int>, mtfFreq: array<int>, yy: array<int>, wr0: nat, zPend0: nat, lli: int, nInUse: nat,
                    ghost col: seq<int>, ghost i: int, ghost all: seq<int>, ghost eob: int)
    returns (wr: nat, zPend: nat)
    requires mtfv != mtfFreq && mtfv != yy && mtfFreq != yy
    requires 0 < nInUse <= 256 && nInUse <= yy.Length && eob == nInUse + 1
    requires 0 <= i < |col| && wr0 + zPend0 <= i && i + 1 < mtfv.Length && lli == col[i]
    requires Generating(mtfv[..wr0], yy[..nInUse], col, i, zPend0, all, eob)
    requires Tallied(mtfFreq[..], mtfv[..wr0], eob)
    modifies mtfv, mtfFreq, yy
    ensures wr + zPend <= i + 1
    ensures Generating(mtfv[..wr], yy[..nInUse], col, i + 1, zPend, all, eob)
    ensures Tallied(mtfFreq[..], mtfv[..wr], eob)
  {
    hide *;
    ghost var w0, list := mtfv[..wr0], yy[..nInUse];
    GeneratingFront(w0, list, col, i, zPend0, all, eob);
    if yy[0] == lli {
      GeneratingZero(w0, list, col, i, zPend0, all, eob);
      wr, zPend := wr0, zPend0 + 1;
    } else {
      wr := FlushRun(mtfv, mtfFreq, wr0, zPend0, eob);
      var j := ShiftToFront(yy, nInUse, lli);
      wr := Emit(mtfv, mtfFreq, wr, j + 1, eob);
      GeneratingRank(w0, list, col, i, zPend0, all, eob, j);
      zPend := 0;
    }
  }
}
