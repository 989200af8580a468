/**
 The symbol decoder of dep/bzip2/decompress.c: turns the symbols of a block back into its last column,
 with the byte frequencies the inverse transform needs.
 */
module MtfDecoder {
  import opened Counting
  import opened MoveToFront
  import Lists = MtfStore

  datatype Status = Ok | Corrupt | More

  /** What a run read amounts to: how it ended, its length less one, and where reading goes on. */
  ghost predicate RunResult(r: RunRead, syms: seq<int>, status: Status, es: int, pos: nat) {
    match r
    case RunError => status == Corrupt
    case RunPending => status == More
    case Run(e, rest) => status == Ok && es == e && pos <= |syms| && rest == syms[pos..]
  }

  /** The run loop, from a symbol that is a run digit. */
  method ReadRunAt(syms: seq<int>, pos0: nat) returns (status: Status, es: int, pos: nat)
    requires pos0 < |syms| && (syms[pos0] == RUNA || syms[pos0] == RUNB)
    ensures RunResult(ReadRun(syms[pos0..], 1, -1), syms, status, es, pos)
    ensures status == Ok ==> pos0 < pos < |syms| && 0 <= es < 4 * RUN_LIMIT
  {
    ghost var whole := ReadRun(syms[pos0..], 1, -1);
    es := -1;
    var N := 1;
    pos := pos0;
    while true
      invariant pos0 <= pos < |syms| && (syms[pos] == RUNA || syms[pos] == RUNB)
      invariant 0 < N && -1 <= es <= 2 * N - 3
      invariant ReadRun(syms[pos..], N, es) == whole
      decreases |syms| - pos
    {
      if N >= RUN_LIMIT { return Corrupt, es, pos; }
      assert syms[pos..][1..] == syms[pos + 1..];
      if syms[pos] == RUNA { es := es + (0 + 1) * N; } else { es := es + (1 + 1) * N; }
      N := N * 2;
      pos := pos + 1;
      if pos == |syms| { return More, es, pos; }
      if syms[pos] != RUNA && syms[pos] != RUNB { break; }
    }
    status := Ok;
  }

  /** The column so far, as bytes, and how often each byte occurs in it. */
  ghost predicate Stored(tt: seq<int>, unzftab: seq<int>, map_: seq<int>, out: seq<int>) {
    && |out| <= |tt| && |map_| == 256 && Within(map_, 0, 256) && Within(out, 0, 256) && |unzftab| == 256
    && (forall k :: 0 <= k < |out| ==> tt[k] == map_[out[k]])
    && (forall c :: 0 <= c < 256 ==> unzftab[c] == Count(tt[..|out|], c))
  }

  lemma {:induction false} CountRepeated(s: seq<int>, c: int, k: nat, d: int)
    ensures Count(s + Repeated(c, k), d) == Count(s, d) + if c == d then k else 0
    decreases k
  {
    var t := s + Repeated(c, k);
    if k == 0 {
      assert t == s;
    } else {
      assert t[..|t| - 1] == s + Repeated(c, k - 1);
      CountRepeated(s, c, k - 1, d);
    }
  }

  lemma StoredMore(tt: seq<int>, tt': seq<int>, freq: seq<int>, map_: seq<int>, out: seq<int>, x: int, k: nat)
    requires Stored(tt, freq, map_, out) && 0 <= x < 256 && |out| + k <= |tt'| == |tt|
    requires tt'[..|out|] == tt[..|out|] && forall i :: |out| <= i < |out| + k ==> tt'[i] == map_[x]
    ensures 0 <= map_[x] < 256
    ensures Stored(tt', freq[map_[x] := freq[map_[x]] + k], map_, out + Repeated(x, k))
  {
    var out' := out + Repeated(x, k);
    var c := map_[x];
    assert tt'[..|out'|] == tt[..|out|] + Repeated(c, k);
    forall d | 0 <= d < 256 ensures freq[c := freq[c] + k][d] == Count(tt'[..|out'|], d) {
      CountRepeated(tt[..|out|], c, k, d);
    }
    forall i | 0 <= i < |out'| ensures tt'[i] == map_[out'[i]] {
      if i < |out| { assert tt'[i] == tt'[..|out|][i] == tt[..|out|][i]; }
    }
  }

  /** Writes es copies of one byte, stopping at the capacity. */
  method Fill(tt: array<int>, nblock0: nat, es0: nat, uc: int, max: nat) returns (ok: bool, nblock: nat)
    requires nblock0 <= max <= tt.Length
    modifies tt
    ensures ok <==> nblock0 + es0 <= max
    ensures ok ==> nblock == nblock0 + es0
    ensures ok ==> tt[..nblock0] == old(tt[..nblock0]) && forall i :: nblock0 <= i < nblock ==> tt[i] == uc
  {
    var es := es0;
    nblock := nblock0;
    while es > 0
      invariant 0 <= es && nblock + es == nblock0 + es0 && nblock0 <= nblock <= max
      invariant forall i :: 0 <= i < nblock0 ==> tt[i] == old(tt[i])
      invariant forall i :: nblock0 <= i < nblock ==> tt[i] == uc
    {
      if nblock >= max { return false, nblock; }
      tt[nblock] := uc;
      nblock := nblock + 1;
      es := es - 1;
    }
    ok := true;
  }

  ghost predicate Outcome(d: Decoded, status: Status, out: seq<int>) {
    match d
    case DataError => status == Corrupt
    case NeedInput => status == More
    case Column(c) => status == Ok && out == c
  }

  lemma DecodeStops(list: seq<int>, out: seq<int>, syms: seq<int>, eob: int, max: int)
    requires |list| == 256 && eob <= 257 && Within(syms, 0, eob + 1) && 1 < eob
    ensures syms == [] ==> Decode(list, out, syms, eob, max) == NeedInput
    ensures syms != [] && syms[0] == eob ==> Decode(list, out, syms, eob, max) == Column(out)
    ensures syms != [] && RUNB < syms[0] < eob && |out| >= max ==> Decode(list, out, syms, eob, max) == DataError
  {
  }

  lemma DecodeRunStep(list: seq<int>, out: seq<int>, syms: seq<int>, eob: int, max: int, status: Status, es: int,
                      pos: nat)
    requires |list| == 256 && 1 < eob <= 257 && Within(syms, 0, eob + 1)
    requires syms != [] && (syms[0] == RUNA || syms[0] == RUNB)
      && RunResult(ReadRun(syms, 1, -1), syms, status, es, pos)
    ensures status == Corrupt ==> Decode(list, out, syms, eob, max) == DataError
    ensures status == More ==> Decode(list, out, syms, eob, max) == NeedInput
    ensures status == Ok ==> pos <= |syms| && Within(syms[pos..], 0, eob + 1) && 0 <= es
    ensures status == Ok && |out| + (es + 1) > max ==> Decode(list, out, syms, eob, max) == DataError
    ensures status == Ok && |out| + (es + 1) <= max ==>
      Decode(list, out, syms, eob, max) == Decode(list, out + Repeated(list[0], es + 1), syms[pos..], eob, max)
  {
    hide ReadRun, Repeated;
  }

  lemma DecodeRankStep(list: seq<int>, out: seq<int>, syms: seq<int>, eob: int, max: int)
    requires |list| == 256 && 1 < eob <= 257 && Within(syms, 0, eob + 1)
    requires syms != [] && RUNB < syms[0] < eob && |out| < max
    ensures Within(syms[1..], 0, eob + 1)
    ensures Decode(list, out, syms, eob, max)
      == Decode(ToFront(list, syms[0] - 1), out + [list[syms[0] - 1]], syms[1..], eob, max)
  {
  }

  /** The main loop's state against the specification of the whole block. */
  ghost predicate Decoding(whole: Decoded, list: seq<int>, out: seq<int>, syms: seq<int>, pos: int, eob: int,
                           max: int) {
    && |list| == 256 && Within(list, 0, 256)
    && 1 < eob <= 257 && 0 <= pos <= |syms| && Within(syms[pos..], 0, eob + 1)
    && whole == Decode(list, out, syms[pos..], eob, max)
  }

  /** A run symbol: reads the run and fills. */
  lemma DecodingRun(whole: Decoded, list: seq<int>, out: seq<int>, syms: seq<int>, pos: int, eob: int, max: int,
                    status: Status, es: int, pos': nat)
    requires Decoding(whole, list, out, syms, pos, eob, max) && pos < |syms| && (syms[pos] == RUNA || syms[pos] == RUNB)
    requires pos < pos' <= |syms| || status != Ok
    requires RunResult(ReadRun(syms[pos..], 1, -1), syms, status, es, pos')
    ensures status == Corrupt ==> whole == DataError
    ensures status == More ==> whole == NeedInput
    ensures status == Ok && |out| + (es + 1) > max ==> whole == DataError
    ensures status == Ok && 0 <= es && |out| + (es + 1) <= max ==>
      Decoding(whole, list, out + Repeated(list[0], es + 1), syms, pos', eob, max)
  {
    hide Decode, ReadRun, Repeated;
    var here := syms[pos..];
    if status == Ok {
      assert here[pos' - pos..] == syms[pos'..];
      DecodeRunStep(list, out, here, eob, max, status, es, pos' - pos);
    } else {
      DecodeRunStep(list, out, here, eob, max, status, es, 0);
    }
  }

  lemma DecodingRank(whole: Decoded, list: seq<int>, out: seq<int>, syms: seq<int>, pos: int, eob: int, max: int)
    requires Decoding(whole, list, out, syms, pos, eob, max) && pos < |syms| && RUNB < syms[pos] < eob
    ensures |out| >= max ==> whole == DataError
    ensures |out| < max ==>
      Decoding(whole, ToFront(list, syms[pos] - 1), out + [list[syms[pos] - 1]], syms, pos + 1, eob, max)
  {
    hide Decode;
    assert syms[pos..][1..] == syms[pos + 1..];
    if |out| >= max {
      DecodeStops(list, out, syms[pos..], eob, max);
    } else {
      DecodeRankStep(list, out, syms[pos..], eob, max);
      WithinToFront(list, syms[pos] - 1);
    }
  }

  lemma WithinToFront(list: seq<int>, k: int)
    requires 0 <= k < |list| && Within(list, 0, 256)
    ensures Within(ToFront(list, k), 0, 256)
  {
    var r := ToFront(list, k);
    forall i | 0 <= i < |r| ensures 0 <= r[i] < 256 {
      assert r[i] in multiset(list);
    }
  }

  lemma DecodingStops(whole: Decoded, list: seq<int>, out: seq<int>, syms: seq<int>, pos: int, eob: int, max: int)
    requires Decoding(whole, list, out, syms, pos, eob, max)
    ensures pos == |syms| ==> whole == NeedInput
    ensures pos < |syms| && syms[pos] == eob ==> whole == Column(out)
    ensures eob <= 257 && (pos < |syms| ==> 0 <= syms[pos] <= eob)
    ensures |list| == 256 && forall k :: 0 <= k < 256 ==> 0 <= list[k] < 256
  {
    DecodeStops(list, out, syms[pos..], eob, max);
    if pos < |syms| { assert syms[pos..][0] == syms[pos]; }
  }

  /** Everything the main loop keeps. */
  ghost predicate State(whole: Decoded, list: seq<int>, tt: seq<int>, unzftab: seq<int>, map_: seq<int>, nblock: int,
                        out: seq<int>, syms: seq<int>, pos: int, eob: int, max: int)
  {
    Decoding(whole, list, out, syms, pos, eob, max) && Stored(tt, unzftab, map_, out) && nblock == |out| <= max <= |tt|
  }

  /** One symbol, or one run, of the main loop; done when the block is complete or cannot go on. */
  method DecodeStep(syms: seq<int>, pos0: nat, eob: int, max: nat, store: Lists.Store, tt: array<int>,
                    seqToUnseq: array<int>,
                    unzftab: array<int>, nblock0: nat, ghost whole: Decoded, ghost out0: seq<int>)
    returns (done: bool, status: Status, pos: nat, nblock: nat, ghost out: seq<int>)
    requires tt != seqToUnseq && tt != unzftab && seqToUnseq != unzftab
    requires {tt, seqToUnseq, unzftab} !! {store.mtfa, store.mtfbase}
    requires store.Valid() && pos0 <= |syms| && seqToUnseq.Length == unzftab.Length == 256
    requires State(whole, store.List(), tt[..], unzftab[..], seqToUnseq[..], nblock0, out0, syms, pos0, eob, max)
    modifies tt, unzftab, store.mtfa, store.mtfbase
    ensures store.Valid()
    ensures !done ==>
      pos0 < pos <= |syms|
      && State(whole, store.List(), tt[..], unzftab[..], seqToUnseq[..], nblock, out, syms, pos, eob, max)
    ensures done ==> Outcome(whole, status, out)
    ensures done && status == Ok ==> nblock == |out| && Stored(tt[..], unzftab[..], seqToUnseq[..], out)
  {
    hide Decode, ReadRun, RunResult, Decoding, Repeated, ToFront, Stored;
    ghost var list := store.List();
    done, status, pos, nblock, out := true, Ok, pos0, nblock0, out0;
    DecodingStops(whole, list, out, syms, pos, eob, max);
    if pos == |syms| { status := More; return; }
    if syms[pos] == eob { return; }
    if syms[pos] == RUNA || syms[pos] == RUNB {
      status, pos, nblock, out := DecodeRunHere(syms, pos, eob, max, store, tt, seqToUnseq, unzftab, nblock, whole,
          out);
      if status != Ok { return; }
    } else {
      status, pos, nblock, out := DecodeRankHere(syms, pos, eob, max, store, tt, seqToUnseq, unzftab, nblock, whole,
          out);
      if status != Ok { return; }
    }
    done := false;
  }

  /** Any other symbol: move its entry to the front and write it once. */
  method DecodeRankHere(syms: seq<int>, pos0: nat, eob: int, max: nat, store: Lists.Store, tt: array<int>,
                        seqToUnseq: array<int>,
                        unzftab: array<int>, nblock0: nat, ghost whole: Decoded, ghost out0: seq<int>)
    returns (status: Status, pos: nat, nblock: nat, ghost out: seq<int>)
    requires tt != seqToUnseq && tt != unzftab && seqToUnseq != unzftab
    requires {tt, seqToUnseq, unzftab} !! {store.mtfa, store.mtfbase}
    requires store.Valid() && pos0 < |syms| && seqToUnseq.Length == unzftab.Length == 256
    requires RUNB < syms[pos0] < eob <= 257
    requires State(whole, store.List(), tt[..], unzftab[..], seqToUnseq[..], nblock0, out0, syms, pos0, eob, max)
    modifies tt, unzftab, store.mtfa, store.mtfbase
    ensures store.Valid()
    ensures status == Ok ==>
      pos0 < pos <= |syms|
      && State(whole, store.List(), tt[..], unzftab[..], seqToUnseq[..], nblock, out, syms, pos, eob, max)
    ensures status != Ok ==> Outcome(whole, status, out)
  {
    hide *;
    status, pos, nblock, out := Ok, pos0, nblock0, out0;
    ghost var list := store.List();
    StateParts(whole, list, tt[..], unzftab[..], seqToUnseq[..], nblock, out, syms, pos, eob, max);
    DecodingStops(whole, list, out, syms, pos, eob, max);
    DecodingRank(whole, list, out, syms, pos, eob, max);
    if nblock >= max {
      status := Corrupt;
      FoundCorrupt(whole, out);
      return;
    }
    var uc := store.Take(syms[pos] - 1);
    nblock := StoreOne(tt, seqToUnseq, unzftab, nblock, uc, out);
    out, pos := out + [uc], pos + 1;
    StateAgain(whole, store.List(), tt[..], unzftab[..], seqToUnseq[..], nblock, out, syms, pos, eob, max);
  }

  lemma StateParts(whole: Decoded, list: seq<int>, tt: seq<int>, unzftab: seq<int>, map_: seq<int>, nblock: int,
                   out: seq<int>, syms: seq<int>, pos: int, eob: int, max: int)
    requires State(whole, list, tt, unzftab, map_, nblock, out, syms, pos, eob, max)
    ensures Decoding(whole, list, out, syms, pos, eob, max) && Stored(tt, unzftab, map_, out)
    ensures nblock == |out| <= max <= |tt| && RUNB == 1
  {
    hide Decoding, Stored;
  }

  lemma StateAgain(whole: Decoded, list: seq<int>, tt: seq<int>, unzftab: seq<int>, map_: seq<int>, nblock: int,
                   out: seq<int>, syms: seq<int>, pos: int, eob: int, max: int)
    requires Decoding(whole, list, out, syms, pos, eob, max) && Stored(tt, unzftab, map_, out)
      && nblock == |out| <= max <= |tt|
    ensures State(whole, list, tt, unzftab, map_, nblock, out, syms, pos, eob, max)
  {
    hide Decoding, Stored;
  }

  lemma FoundCorrupt(whole: Decoded, out: seq<int>)
    requires whole == DataError
    ensures Outcome(whole, Corrupt, out)
  {
  }

  /** A run: read its digits, then write the front byte that many times. */
  method DecodeRunHere(syms: seq<int>, pos0: nat, eob: int, max: nat, store: Lists.Store, tt: array<int>,
                       seqToUnseq: array<int>,
                       unzftab: array<int>, nblock0: nat, ghost whole: Decoded, ghost out0: seq<int>)
    returns (status: Status, pos: nat, nblock: nat, ghost out: seq<int>)
    requires tt != seqToUnseq && tt != unzftab && seqToUnseq != unzftab
    requires {tt, seqToUnseq, unzftab} !! {store.mtfa, store.mtfbase}
    requires store.Valid() && pos0 < |syms| && seqToUnseq.Length == unzftab.Length == 256
    requires syms[pos0] == RUNA || syms[pos0] == RUNB
    requires State(whole, store.List(), tt[..], unzftab[..], seqToUnseq[..], nblock0, out0, syms, pos0, eob, max)
    modifies tt, unzftab
    ensures store.Valid()
    ensures status == Ok ==>
      pos0 < pos <= |syms|
      && State(whole, store.List(), tt[..], unzftab[..], seqToUnseq[..], nblock, out, syms, pos, eob, max)
    ensures status != Ok ==> Outcome(whole, status, out)
  {
    hide Decode, ReadRun, RunResult, Decoding, Repeated, Stored;
    pos, nblock, out := pos0, nblock0, out0;
    ghost var list := store.List();
    DecodingStops(whole, list, out, syms, pos, eob, max);
    var es, pos';
    status, es, pos' := ReadRunAt(syms, pos);
    DecodingRun(whole, list, out, syms, pos, eob, max, status, es, pos');
    if status != Ok { return; }
    es := es + 1;
    var x := store.Front();
    var ok;
    ok, nblock := StoreRun(tt, seqToUnseq, unzftab, nblock, x, es, max, out);
    if !ok { status := Corrupt; return; }
    out, pos := out + Repeated(x, es), pos';
  }

  /**
   Decodes the symbols of one block into tt. The result is what the specification says of the symbols;
   on success tt holds the column as bytes and unzftab counts them.
   */
  method DecodeBlock(syms: seq<int>, eob: int, max: nat, tt: array<int>, seqToUnseq: array<int>, unzftab: array<int>)
    returns (status: Status, nblock: nat, ghost out: seq<int>)
    requires 1 < eob <= 257 && Within(syms, 0, eob + 1) && max <= tt.Length
    requires tt != seqToUnseq && tt != unzftab && seqToUnseq != unzftab
    requires seqToUnseq.Length == 256 && Within(seqToUnseq[..], 0, 256) && unzftab.Length == 256
    modifies tt, unzftab
    ensures Outcome(Decode(Identity(256), [], syms, eob, max), status, out)
    ensures status == Ok ==> nblock == |out| && Stored(tt[..], unzftab[..], seqToUnseq[..], out)
  {
    hide Decode, State, Stored, Decoding, Within;
    ClearCounts(unzftab);
    ghost var whole := Decode(Identity(256), [], syms, eob, max);
    var store := new Lists.Store();
    nblock, out, status := 0, [], Ok;
    var done, pos := false, 0;
    StateStarts(syms, eob, max, tt[..], unzftab[..], seqToUnseq[..]);
    while !done
      invariant store.Valid() && fresh(store.mtfa) && fresh(store.mtfbase)
      invariant !done ==>
        pos <= |syms|
        && State(whole, store.List(), tt[..], unzftab[..], seqToUnseq[..], nblock, out, syms, pos, eob, max)
      invariant done ==> Outcome(whole, status, out)
      invariant done && status == Ok ==> nblock == |out| && Stored(tt[..], unzftab[..], seqToUnseq[..], out)
      decreases if done then 0 else |syms| - pos + 1
    {
      done, status, pos, nblock, out := DecodeStep(syms, pos, eob, max, store, tt, seqToUnseq, unzftab, nblock, whole,
          out);
    }
  }

  method ClearCounts(unzftab: array<int>)
    requires unzftab.Length == 256
    modifies unzftab
    ensures forall c :: 0 <= c < 256 ==> unzftab[c] == 0
  {
    var i := 0;
    while i < 256
      invariant 0 <= i <= 256 && forall c :: 0 <= c < i ==> unzftab[c] == 0
    {
      unzftab[i] := 0;
      i := i + 1;
    }
  }

  /** Writes a run of es copies of the byte with sequence number x. */
  method StoreRun(tt: array<int>, seqToUnseq: array<int>, unzftab: array<int>, nblock0: nat, x: int, es: nat, max: nat,
                  ghost out: seq<int>)
    returns (ok: bool, nblock: nat)
    requires tt != seqToUnseq && tt != unzftab && seqToUnseq != unzftab
    requires 0 <= x < 256 && nblock0 == |out| <= max <= tt.Length && Stored(tt[..], unzftab[..], seqToUnseq[..], out)
    modifies tt, unzftab
    ensures ok <==> nblock0 + es <= max
    ensures ok ==> nblock == nblock0 + es && Stored(tt[..], unzftab[..], seqToUnseq[..], out + Repeated(x, es))
  {
    ghost var t, f, m := tt[..], unzftab[..], seqToUnseq[..];
    var uc := seqToUnseq[x];
    unzftab[uc] := unzftab[uc] + es;
    ok, nblock := Fill(tt, nblock0, es, uc, max);
    if ok {
      assert unzftab[..] == f[uc := f[uc] + es];
      assert tt[..][..nblock0] == tt[..nblock0] == t[..nblock0];
      StoredMore(t, tt[..], f, m, out, x, es);
    }
  }

  /** Writes one byte, with sequence number uc. */
  method StoreOne(tt: array<int>, seqToUnseq: array<int>, unzftab: array<int>, nblock0: nat, uc: int,
                  ghost out: seq<int>)
    returns (nblock: nat)
    requires tt != seqToUnseq && tt != unzftab && seqToUnseq != unzftab
    requires 0 <= uc < 256 && nblock0 == |out| < tt.Length && Stored(tt[..], unzftab[..], seqToUnseq[..], out)
    modifies tt, unzftab
    ensures nblock == nblock0 + 1 && Stored(tt[..], unzftab[..], seqToUnseq[..], out + [uc])
  {
    ghost var t, f, m := tt[..], unzftab[..], seqToUnseq[..];
    unzftab[seqToUnseq[uc]] := unzftab[seqToUnseq[uc]] + 1;
    tt[nblock0] := seqToUnseq[uc];
    nblock := nblock0 + 1;
    assert unzftab[..] == f[m[uc] := f[m[uc]] + 1];
    assert tt[..][..nblock0] == t[..nblock0];
    StoredMore(t, tt[..], f, m, out, uc, 1);
    assert Repeated(uc, 1) == [uc];
  }

  lemma StateStarts(syms: seq<int>, eob: int, max: nat, tt: seq<int>, freq: seq<int>, map_: seq<int>)
    requires 1 < eob <= 257 && Within(syms, 0, eob + 1) && max <= |tt|
    requires |map_| == 256 && Within(map_, 0, 256) && |freq| == 256 && forall c :: 0 <= c < 256 ==> freq[c] == 0
    ensures State(Decode(Identity(256), [], syms, eob, max), Identity(256), tt, freq, map_, 0, [], syms, 0, eob, max)
  {
    assert tt[..0] == [];
    assert syms[0..] == syms;
  }
}
