/**
 The symbols between the block sort and the Huffman coder of bzip2: move-to-front ranks, with runs of
 rank 0 written in bijective base 2. Specification functions and their round trip; the routines that
 compute them are in MtfEncoder and MtfDecoder.
 */
module MoveToFront {
  import opened Counting

  const RUNA := 0
  const RUNB := 1

  /** The list with its entry k brought to the front. */
  function ToFront(list: seq<int>, k: int): (r: seq<int>)
    requires 0 <= k < |list|
    ensures |r| == |list| && multiset(r) == multiset(list)
  {
    assert list == list[..k] + [list[k]] + list[k + 1..];
    [list[k]] + list[..k] + list[k + 1..]
  }

  predicate Within(s: seq<int>, lo: int, hi: int) {
    forall i :: 0 <= i < |s| ==> lo <= s[i] < hi
  }

  ghost predicate AllIn(s: seq<int>, list: seq<int>) {
    forall i :: 0 <= i < |s| ==> s[i] in list
  }

  lemma AllInToFront(s: seq<int>, list: seq<int>, k: int)
    requires AllIn(s, list) && 0 <= k < |list|
    ensures AllIn(s, ToFront(list, k))
  {
    forall i | 0 <= i < |s| ensures s[i] in ToFront(list, k) {
      assert s[i] in multiset(list);
      assert s[i] in multiset(ToFront(list, k));
    }
  }

  ghost predicate Distinct(list: seq<int>) {
    forall i, j :: 0 <= i < j < |list| ==> list[i] != list[j]
  }

  lemma ToFrontKeeps(list: seq<int>, k: int)
    requires 0 <= k < |list| && Distinct(list)
    ensures Distinct(ToFront(list, k))
    ensures forall x :: x in ToFront(list, k) <==> x in list
  {
    ToFrontAt(list, k);
    hide ToFront;
    var r := ToFront(list, k);
    forall x ensures x in r <==> x in list {
      assert x in multiset(r) <==> x in multiset(list);
    }
  }

  lemma ToFrontAt(list: seq<int>, k: int)
    requires 0 <= k < |list|
    ensures forall i {:trigger ToFront(list, k)[i]} :: 0 <= i < |list| ==>
      ToFront(list, k)[i] == list[if i == 0 then k else if i <= k then i - 1 else i]
  {
  }

  /** Where x stands in the list. */
  function Position(list: seq<int>, x: int): (k: int)
    requires x in list
    ensures 0 <= k < |list| && list[k] == x && x !in list[..k]
  {
    if list[0] == x then 0 else 1 + Position(list[1..], x)
  }

  lemma PositionOf(list: seq<int>, k: int)
    requires Distinct(list) && 0 <= k < |list|
    ensures Position(list, list[k]) == k
  {
  }

  // ----- ranks ----------------------------------------------------------------------------------------

  /** Each entry of s replaced by its current place in the list, which is then moved to the front. */
  ghost function RanksOf(list: seq<int>, s: seq<int>): (r: seq<int>)
    requires AllIn(s, list)
    ensures |r| == |s| && Within(r, 0, |list|)
    decreases |s|
  {
    if s == [] then []
    else
      var k := Position(list, s[0]);
      AllInToFront(s, list, k);
      [k] + RanksOf(ToFront(list, k), s[1..])
  }

  // ----- runs of rank 0 -------------------------------------------------------------------------------

  /** z in bijective base 2, least digit first: RUNA stands for 1, RUNB for 2. */
  function RunDigits(z: nat): (d: seq<int>)
    ensures forall i :: 0 <= i < |d| ==> d[i] == RUNA || d[i] == RUNB
    ensures |d| <= z
    ensures z > 0 ==> d != []
  {
    if z == 0 then [] else [if z % 2 == 1 then RUNA else RUNB] + RunDigits((z - 1) / 2)
  }

  /** The symbols for ranks r when z ranks of 0 are already pending. */
  ghost function Symbols(r: seq<int>, z: nat, eob: int): (s: seq<int>)
    requires Within(r, 0, 256)
    ensures 0 < |s| <= |r| + z + 1
  {
    if r == [] then RunDigits(z) + [eob]
    else if r[0] == 0 then Symbols(r[1..], z + 1, eob)
    else RunDigits(z) + [r[0] + 1] + Symbols(r[1..], 0, eob)
  }

  // ----- what the decoder computes --------------------------------------------------------------------

  datatype RunRead = RunError | RunPending | Run(es: int, rest: seq<int>)

  const RUN_LIMIT := 2 * 1024 * 1024

  /** The run loop: adds up digits until another symbol comes; the weight check guards against overflow. */
  function ReadRun(syms: seq<int>, n: int, es: int): (r: RunRead)
    requires syms != [] && (syms[0] == RUNA || syms[0] == RUNB)
    requires 0 < n && -1 <= es <= 2 * n - 3
    ensures r.Run? ==> |r.rest| < |syms| && 0 <= r.es < 4 * RUN_LIMIT
    decreases |syms|
  {
    if n >= RUN_LIMIT then RunError
    else
      var es' := if syms[0] == RUNA then es + (0 + 1) * n else es + (1 + 1) * n;
      if |syms| == 1 then RunPending
      else if syms[1] == RUNA || syms[1] == RUNB then ReadRun(syms[1..], n * 2, es')
      else Run(es', syms[1..])
  }

  datatype Decoded = DataError | NeedInput | Column(bytes: seq<int>)

  function Repeated(c: int, k: nat): (r: seq<int>)
    ensures |r| == k && forall i :: 0 <= i < k ==> r[i] == c
  {
    seq(k, _ => c)
  }

  /** Decoding with the list as it stands and out already produced; max is the block's capacity. */
  function Decode(list: seq<int>, out: seq<int>, syms: seq<int>, eob: int, max: int): Decoded
    requires |list| == 256 && eob <= 257 && Within(syms, 0, eob + 1)
    decreases |syms|
  {
    if syms == [] then NeedInput
    else if syms[0] == eob then Column(out)
    else if syms[0] == RUNA || syms[0] == RUNB then
      var r := ReadRun(syms, 1, -1);
      match r
      case RunError => DataError
      case RunPending => NeedInput
      case Run(es, rest) =>
        RunRest(syms, 1, -1);
        if |out| + (es + 1) > max then DataError
        else Decode(list, out + Repeated(list[0], es + 1), rest, eob, max)
    else if |out| >= max then DataError
    else
      var nn := syms[0] - 1;
      Decode(ToFront(list, nn), out + [list[nn]], syms[1..], eob, max)
  }

  lemma {:induction false} RunRest(syms: seq<int>, n: int, es: int)
    requires syms != [] && (syms[0] == RUNA || syms[0] == RUNB)
    requires 0 < n && -1 <= es <= 2 * n - 3
    ensures var r := ReadRun(syms, n, es); r.Run? ==> exists k :: 0 < k < |syms| && r.rest == syms[k..]
    decreases |syms|
  {
    if n < RUN_LIMIT && |syms| > 1 {
      if syms[1] == RUNA || syms[1] == RUNB {
        var d := if syms[0] == RUNA then es + (0 + 1) * n else es + (1 + 1) * n;
        RunRest(syms[1..], n * 2, d);
        var r := ReadRun(syms[1..], n * 2, d);
        if r.Run? {
          var k :| 0 < k < |syms[1..]| && r.rest == syms[1..][k..];
          assert r.rest == syms[k + 1..];
        }
      } else {
        assert syms[1..] == syms[1..];
      }
    }
  }

  // ----- the round trip -------------------------------------------------------------------------------

  /** One turn of the run loop. */
  lemma ReadOneDigit(syms: seq<int>, n: int, es: int, next: int, rest: seq<int>)
    requires 0 < n < RUN_LIMIT && -1 <= es <= 2 * n - 3
    requires |syms| > 1 && syms[1..] == rest && rest[0] == next && (syms[0] == RUNA || syms[0] == RUNB)
    ensures var d := es + (if syms[0] == RUNA then 1 else 2) * n;
      ReadRun(syms, n, es) == if next == RUNA || next == RUNB then ReadRun(rest, n * 2, d) else Run(d, rest)
  {
  }

  lemma DigitOf(z: nat)
    requires z > 0
    ensures z == (if z % 2 == 1 then 1 else 2) + 2 * ((z - 1) / 2)
  {
    assert z == 2 * (z / 2) + z % 2;
    if z % 2 == 1 { assert (z - 1) / 2 == z / 2; } else { assert (z - 1) / 2 == z / 2 - 1; }
  }

  lemma FirstDigit(z: nat)
    requires z > 0
    ensures RunDigits(z) == [if z % 2 == 1 then RUNA else RUNB] + RunDigits((z - 1) / 2)
    ensures RunDigits(0) == []
  {
  }

  /** Reading back a run: from weight n and total es, the digits of z add n*z, as long as z is within a block. */
  lemma {:induction false} ReadDigits(z: nat, n: int, es: int, next: int, tail: seq<int>)
    requires z > 0 && n > 0 && next != RUNA && next != RUNB
    requires n * z < RUN_LIMIT && -1 <= es <= 2 * n - 3
    ensures var syms := RunDigits(z) + [next] + tail;
      ReadRun(syms, n, es) == Run(es + n * z, [next] + tail)
    decreases z
  {
    hide ReadRun, RunDigits;
    var syms := RunDigits(z) + [next] + tail;
    var digit := if z % 2 == 1 then 1 else 2;
    var z' := (z - 1) / 2;
    var rest := RunDigits(z') + [next] + tail;
    FirstDigit(z);
    DigitOf(z);
    assert syms[1..] == rest;
    RunWeights(n, digit, z');
    if z' == 0 {
      assert rest == [next] + tail;
      ReadOneDigit(syms, n, es, next, rest);
    } else {
      ReadOneDigit(syms, n, es, RunDigits(z')[0], rest);
      ReadDigits(z', n * 2, es + digit * n, next, tail);
    }
  }

  lemma RunWeights(n: int, d: int, z: int)
    requires n > 0 && d > 0 && z >= 0
    ensures n * (d + 2 * z) == d * n + (n * 2) * z
    ensures (n * 2) * z <= n * (d + 2 * z) && n <= n * (d + 2 * z)
  {
    assert n * (d + 2 * z) == n * d + n * (2 * z);
    assert n * (2 * z) == (n * 2) * z;
  }

  /** The bytes that ranks r stand for. */
  function Unrank(list: seq<int>, r: seq<int>): (s: seq<int>)
    requires Within(r, 0, |list|)
    ensures |s| == |r|
    decreases |r|
  {
    if r == [] then [] else [list[r[0]]] + Unrank(ToFront(list, r[0]), r[1..])
  }

  lemma {:induction false} UnrankInverts(list: seq<int>, s: seq<int>)
    requires Distinct(list) && AllIn(s, list)
    ensures Unrank(list, RanksOf(list, s)) == s
    decreases |s|
  {
    if s != [] {
      var k := Position(list, s[0]);
      ToFrontKeeps(list, k);
      UnrankInverts(ToFront(list, k), s[1..]);
    }
  }

  /** Entries behind the ones in use are never reached. */
  lemma {:induction false} UnrankPrefix(list: seq<int>, tail: seq<int>, r: seq<int>)
    requires Within(r, 0, |list|)
    ensures Unrank(list + tail, r) == Unrank(list, r)
    decreases |r|
  {
    if r != [] {
      assert ToFront(list + tail, r[0]) == ToFront(list, r[0]) + tail;
      UnrankPrefix(ToFront(list, r[0]), tail, r[1..]);
    }
  }

  /** Every symbol written is below or at the end marker. */
  lemma {:induction false} SymbolsInAlphabet(r: seq<int>, z: nat, eob: int)
    requires 1 < eob <= 257 && Within(r, 0, eob - 1)
    ensures Within(Symbols(r, z, eob), 0, eob + 1)
    decreases |r|
  {
    if r != [] {
      if r[0] == 0 { SymbolsInAlphabet(r[1..], z + 1, eob); } else { SymbolsInAlphabet(r[1..], 0, eob); }
    }
  }

  /** A pending run of z zero ranks decodes to z copies of the front entry, whatever symbol follows it. */
  lemma DecodeRun(list: seq<int>, out: seq<int>, z: nat, next: int, tail: seq<int>, eob: int, max: int)
    requires |list| == 256 && RUNB < next <= eob <= 257 && Within(tail, 0, eob + 1)
    requires |out| + z <= max < RUN_LIMIT
    ensures Within(RunDigits(z) + [next] + tail, 0, eob + 1) && Within([next] + tail, 0, eob + 1)
    ensures Decode(list, out, RunDigits(z) + [next] + tail, eob, max)
         == Decode(list, out + Repeated(list[0], z), [next] + tail, eob, max)
  {
    RunWithin(z, next, tail, eob);
    hide *;
    if z == 0 {
      NoRun(list[0], out, next, tail);
    } else {
      WholeRun(z, next, tail);
      var syms, rest := RunDigits(z) + [next] + tail, [next] + tail;
      DecodeReadRun(list, out, syms, eob, max, z, rest);
    }
  }

  lemma NoRun(c: int, out: seq<int>, next: int, tail: seq<int>)
    ensures RunDigits(0) + [next] + tail == [next] + tail && out + Repeated(c, 0) == out
  {
  }

  /** The digits of a run are read to their end from its first symbol. */
  lemma WholeRun(z: nat, next: int, tail: seq<int>)
    requires 0 < z < RUN_LIMIT && next != RUNA && next != RUNB
    ensures var syms := RunDigits(z) + [next] + tail;
      syms != [] && (syms[0] == RUNA || syms[0] == RUNB) && ReadRun(syms, 1, -1) == Run(z - 1, [next] + tail)
  {
    hide ReadRun;
    ReadDigits(z, 1, -1, next, tail);
    var syms := RunDigits(z) + [next] + tail;
    assert syms[0] == RunDigits(z)[0];
  }

  lemma RunWithin(z: nat, next: int, tail: seq<int>, eob: int)
    requires RUNB < next <= eob && Within(tail, 0, eob + 1)
    ensures Within(RunDigits(z) + [next] + tail, 0, eob + 1) && Within([next] + tail, 0, eob + 1)
  {
  }

  lemma DecodeReadRun(list: seq<int>, out: seq<int>, syms: seq<int>, eob: int, max: int, z: nat, rest: seq<int>)
    requires |list| == 256 && RUNB < eob <= 257 && Within(syms, 0, eob + 1) && Within(rest, 0, eob + 1)
    requires syms != [] && (syms[0] == RUNA || syms[0] == RUNB) && ReadRun(syms, 1, -1) == Run(z - 1, rest) && 0 < z
    requires |out| + z <= max
    ensures Decode(list, out, syms, eob, max) == Decode(list, out + Repeated(list[0], z), rest, eob, max)
  {
    hide ReadRun, Repeated, Within;
  }

  lemma DecodeRank(list: seq<int>, out: seq<int>, k: int, tail: seq<int>, eob: int, max: int)
    requires |list| == 256 && 0 < k && k + 1 < eob <= 257 && Within(tail, 0, eob + 1)
    requires |out| < max
    ensures Within([k + 1] + tail, 0, eob + 1)
    ensures Decode(list, out, [k + 1] + tail, eob, max) == Decode(ToFront(list, k), out + [list[k]], tail, eob, max)
  {
    var syms := [k + 1] + tail;
    assert syms[1..] == tail;
    assert syms[0] == k + 1;
  }

  lemma DecodeEnd(list: seq<int>, out: seq<int>, eob: int, max: int)
    requires |list| == 256 && 1 < eob <= 257
    ensures Within([eob], 0, eob + 1) && Decode(list, out, [eob], eob, max) == Column(out)
  {
  }

  /** Appending a run and then more is appending the concatenation. */
  lemma OneMoreZero(out: seq<int>, c: int, z: nat, u: seq<int>)
    ensures out + Repeated(c, z + 1) + u == out + Repeated(c, z) + ([c] + u)
  {
    assert Repeated(c, z + 1) == Repeated(c, z) + [c];
  }

  /** The decoder undoes the symbol coding of any ranks that fit in the block. */
  lemma {:induction false} DecodeSymbols(list: seq<int>, out: seq<int>, r: seq<int>, z: nat, eob: int, max: int)
    requires |list| == 256 && 1 < eob <= 257
    requires Within(r, 0, eob - 1) && Within(r, 0, 256)
    requires |out| + z + |r| <= max < RUN_LIMIT
    ensures Within(Symbols(r, z, eob), 0, eob + 1)
    ensures Decode(list, out, Symbols(r, z, eob), eob, max) == Column(out + Repeated(list[0], z) + Unrank(list, r))
    decreases |r|
  {
    hide *;
    if r == [] {
      DecodeNothing(list, out, z, eob, max);
    } else {
      FrontRank(list, r, z, eob);
      if r[0] == 0 {
        DecodeSymbols(list, out, r[1..], z + 1, eob, max);
        OneMoreZero(out, list[0], z, Unrank(list, r[1..]));
      } else {
        var out1 := out + Repeated(list[0], z) + [list[r[0]]];
        DecodeNonZero(list, out, r, z, eob, max);
        DecodeSymbols(ToFront(list, r[0]), out1, r[1..], 0, eob, max);
        assert out1 + Repeated(ToFront(list, r[0])[0], 0) == out1;
        assert out1 + Unrank(ToFront(list, r[0]), r[1..])
            == out + Repeated(list[0], z) + ([list[r[0]]] + Unrank(ToFront(list, r[0]), r[1..]));
      }
    }
  }

  lemma FrontRank(list: seq<int>, r: seq<int>, z: nat, eob: int)
    requires r != [] && 1 < eob <= 257 && Within(r, 0, eob - 1) && |list| == 256
    ensures 0 <= r[0] < 256 && Within(r[1..], 0, eob - 1) && Within(r, 0, 256) && Within(r[1..], 0, 256)
    ensures Unrank(list, r) == [list[r[0]]] + Unrank(ToFront(list, r[0]), r[1..])
    ensures r[0] == 0 ==> ToFront(list, 0) == list && Symbols(r, z, eob) == Symbols(r[1..], z + 1, eob)
  {
    FrontStays(list);
    hide ToFront, RunDigits;
  }

  lemma FrontStays(list: seq<int>)
    requires list != []
    ensures ToFront(list, 0) == list
  {
  }

  lemma DecodeNothing(list: seq<int>, out: seq<int>, z: nat, eob: int, max: int)
    requires |list| == 256 && 1 < eob <= 257 && |out| + z <= max < RUN_LIMIT
    ensures Within(Symbols([], z, eob), 0, eob + 1)
    ensures Decode(list, out, Symbols([], z, eob), eob, max) == Column(out + Repeated(list[0], z) + Unrank(list, []))
  {
    hide Decode, RunDigits, Repeated;
    var out1 := out + Repeated(list[0], z);
    DecodeRun(list, out, z, eob, [], eob, max);
    assert RunDigits(z) + [eob] + [] == RunDigits(z) + [eob] && [eob] + [] == [eob];
    DecodeEnd(list, out1, eob, max);
    assert out1 + [] == out1;
  }

  lemma DecodeNonZero(list: seq<int>, out: seq<int>, r: seq<int>, z: nat, eob: int, max: int)
    requires |list| == 256 && 1 < eob <= 257 && r != [] && r[0] != 0
    requires Within(r, 0, eob - 1) && |out| + z + |r| <= max < RUN_LIMIT
    ensures Within(Symbols(r, z, eob), 0, eob + 1) && Within(Symbols(r[1..], 0, eob), 0, eob + 1)
    ensures Decode(list, out, Symbols(r, z, eob), eob, max)
         == Decode(ToFront(list, r[0]), out + Repeated(list[0], z) + [list[r[0]]], Symbols(r[1..], 0, eob), eob, max)
  {
    hide Decode, RunDigits, Repeated;
    var k, tail := r[0], Symbols(r[1..], 0, eob);
    SymbolsInAlphabet(r, z, eob);
    SymbolsInAlphabet(r[1..], 0, eob);
    DecodeRun(list, out, z, k + 1, tail, eob, max);
    DecodeRank(list, out + Repeated(list[0], z), k, tail, eob, max);
  }

  /** 0, 1, ..., n-1. */
  function Identity(n: nat): (s: seq<int>)
    ensures |s| == n && forall i :: 0 <= i < n ==> s[i] == i
  {
    seq(n, i => i)
  }

  lemma InIdentity(s: seq<int>, n: nat)
    requires Within(s, 0, n)
    ensures AllIn(s, Identity(n)) && Distinct(Identity(n))
  {
    forall i | 0 <= i < |s| ensures s[i] in Identity(n) { assert Identity(n)[s[i]] == s[i]; }
  }

  /**
   Round trip of the whole stage on a column of sequence numbers 0..nInUse-1: coding with the list of
   the numbers in use and decoding with the full list of 256 gives the column back, for any block size.
   */
  lemma StageRoundTrip(s: seq<int>, nInUse: nat, max: int)
    requires 0 < nInUse <= 256 && |s| <= max < RUN_LIMIT
    requires Within(s, 0, nInUse)
    ensures AllIn(s, Identity(nInUse)) && Within(RanksOf(Identity(nInUse), s), 0, 256)
    ensures var syms := Symbols(RanksOf(Identity(nInUse), s), 0, nInUse + 1);
      && Within(syms, 0, nInUse + 2)
      && Decode(Identity(256), [], syms, nInUse + 1, max) == Column(s)
  {
    hide *;
    InIdentity(s, nInUse);
    var list, all := Identity(nInUse), Identity(256);
    var r := RanksOf(list, s);
    WithinMore(r, nInUse, 256);
    DecodeSymbols(all, [], r, 0, nInUse + 1, max);
    assert all == list + all[nInUse..];
    UnrankPrefix(list, all[nInUse..], r);
    UnrankInverts(list, s);
    NothingBefore(all[0], s);
  }

  lemma WithinMore(r: seq<int>, n: int, m: int)
    requires Within(r, 0, n) && n <= m
    ensures Within(r, 0, m)
  {
  }

  lemma NothingBefore(c: int, s: seq<int>)
    ensures [] + Repeated(c, 0) + s == s
  {
  }
}
