/**
 The compressing side of bzip2's run-length stage and the state machine that cuts the input into blocks
 (dep/bzip2/bzlib.c:118-130, 135-147, 150-216, 218-403, 407-475). The block compressor itself is seen only
 through the amount of output it leaves to be copied.
 */
module RunEncoder {
  import opened Rotations
  import opened MoveToFront
  import opened RunLength

  /** The value of stateInCh when no run is pending. */
  const NONE := 256
  const INITIAL_CRC := 0xffff_ffff

  /** The checksum of s, for any way of adding one byte to it. */
  ghost function Checksum(step: (int, int) -> int, s: seq<int>): int {
    if s == [] then INITIAL_CRC else step(Checksum(step, s[..|s| - 1]), s[|s| - 1])
  }

  lemma ChecksumRun(step: (int, int) -> int, t: seq<int>, c: int, k: nat)
    ensures Checksum(step, t + Repeated(c, k + 1)) == step(Checksum(step, t + Repeated(c, k)), c)
    ensures t + Repeated(c, 0) == t
  {
    var s := t + Repeated(c, k + 1);
    assert s[..|s| - 1] == t + Repeated(c, k);
  }

  /** The block holds what is stored for runs, inUse the bytes in it, and crc the checksum of the text. */
  ghost predicate Filled(block: seq<int>, nblock: int, inUse: seq<bool>, crc: int, step: (int, int) -> int,
                         runs: seq<Run>) {
    && Tidy(runs) && |inUse| == 256
    && 0 <= nblock <= |block| && block[..nblock] == Storage(runs)
    && (forall c {:trigger inUse[c]} :: 0 <= c < 256 ==> (inUse[c] <==> c in block[..nblock]))
    && crc == Checksum(step, Text(runs))
  }

  lemma FilledTidy(block: seq<int>, nblock: int, inUse: seq<bool>, crc: int, step: (int, int) -> int, runs: seq<Run>)
    requires Filled(block, nblock, inUse, crc, step, runs)
    ensures Tidy(runs)
  {
  }

  lemma NothingFilled(block: seq<int>, inUse: seq<bool>, step: (int, int) -> int)
    requires |inUse| == 256 && forall c {:trigger inUse[c]} :: 0 <= c < 256 ==> !inUse[c]
    ensures Filled(block, 0, inUse, INITIAL_CRC, step, [])
  {
  }

  lemma FilledMore(block: seq<int>, nblock: int, inUse: seq<bool>, crc: int, step: (int, int) -> int, runs: seq<Run>,
                   r: Run,
                   block': seq<int>, nblock': int, inUse': seq<bool>, crc': int)
    requires Filled(block, nblock, inUse, crc, step, runs) && Follows(runs, r)
    requires nblock' == nblock + |Stored(r)| <= |block'| && block'[..nblock'] == block[..nblock] + Stored(r)
    requires inUse' == if r.len < 4 then inUse[r.ch := true] else inUse[r.ch := true][r.len - 4 := true]
    requires crc' == Checksum(step, Text(runs) + Repeated(r.ch, r.len))
    ensures Filled(block', nblock', inUse', crc', step, runs + [r])
  {
    Closed(runs, r);
    hide Tidy, Storage, Text, Follows, Checksum, Stored;
    UseMore(block[..nblock], inUse, r, inUse');
  }

  lemma UseMore(stored: seq<int>, inUse: seq<bool>, r: Run, inUse': seq<bool>)
    requires Legal(r) && |inUse| == 256
    requires forall c {:trigger inUse[c]} :: 0 <= c < 256 ==> (inUse[c] <==> c in stored)
    requires inUse' == if r.len < 4 then inUse[r.ch := true] else inUse[r.ch := true][r.len - 4 := true]
    ensures forall c {:trigger inUse'[c]} :: 0 <= c < 256 ==> (inUse'[c] <==> c in stored + Stored(r))
  {
    hide Stored;
    forall c {:trigger inUse'[c]} | 0 <= c < 256 ensures inUse'[c] <==> c in stored + Stored(r) {
      assert inUse[c] <==> c in stored;
      StoredBytes(r, c);
    }
  }

  lemma StoredBytes(r: Run, c: int)
    requires Legal(r)
    ensures c in Stored(r) <==> c == r.ch || (r.len >= 4 && c == r.len - 4)
  {
    var s := Stored(r);
    assert s[0] == r.ch;
    if r.len >= 4 { assert s[4] == r.len - 4; }
  }

  lemma StoredAs(s: seq<int>, r: Run)
    requires Legal(r)
    ensures r.len == 1 ==> s + Stored(r) == s + [r.ch]
    ensures r.len == 2 ==> s + Stored(r) == s + [r.ch] + [r.ch]
    ensures r.len == 3 ==> s + Stored(r) == s + [r.ch] + [r.ch] + [r.ch]
    ensures r.len >= 4 ==> s + Stored(r) == s + [r.ch] + [r.ch] + [r.ch] + [r.ch] + [r.len - 4]
    ensures |Stored(r)| == if r.len < 4 then r.len else 5
  {
  }

  datatype Mode = Idle | Running | Flushing | Finishing
  datatype State = Output | Input
  datatype Action = DoRun | DoFlush | DoFinish
  datatype Code = SequenceError | ParamError | RunOk | FlushOk | FinishOk | StreamEnd

  /** The pending run, as text. */
  ghost function Pending(ch: int, len: int): (s: seq<int>) {
    if 0 <= ch < NONE && len >= 0 then Repeated(ch, len) else []
  }

  /** What is pending may be closed after runs; with nothing pending, nothing has been stored. */
  ghost predicate PendingFits(runs: seq<Run>, ch: int, len: int) {
    && 0 <= ch <= NONE
    && (ch < NONE ==> Follows(runs, Equal(ch, len)))
    && (ch == NONE ==> len == 0 && runs == [])
  }

  /** A block handed to the block compressor: its bytes, the runs they store, and the checksum sent with it. */
  datatype Finished = Finished(bytes: seq<int>, runs: seq<Run>, crc: int)

  /** The text of finished blocks, in order. */
  ghost function AllText(blocks: seq<Finished>): seq<int> {
    if blocks == [] then [] else
      AllText(blocks[..|blocks| - 1]) + (if Tidy(blocks[|blocks| - 1].runs) then Text(blocks[|blocks| - 1].runs)
        else [])
  }

  ghost predicate Sound(f: Finished, nblockMAX: int, step: (int, int) -> int) {
    Tidy(f.runs) && f.bytes == Storage(f.runs) && 0 < |f.bytes| <= nblockMAX + 9
      && f.crc == Checksum(step, Text(f.runs))
  }

  ghost predicate History(blocks: seq<Finished>, nblockMAX: int, step: (int, int) -> int) {
    forall i {:trigger blocks[i]} :: 0 <= i < |blocks| ==> Sound(blocks[i], nblockMAX, step)
  }

  /** Each of these blocks was full when it was handed over. */
  ghost predicate Full(blocks: seq<Finished>, from: int, to: int, nblockMAX: int) {
    forall i {:trigger blocks[i]} :: 0 <= from <= i < to <= |blocks| ==> nblockMAX <= |blocks[i].bytes|
  }

  /**
   All blocks from one on were full, or all but the last, which was not because the input that was announced is used
   up.
   */
  ghost predicate FullButLast(blocks: seq<Finished>, from: int, nblockMAX: int, usedUp: bool) {
    Full(blocks, from, |blocks|, nblockMAX) || (usedUp && Full(blocks, from, |blocks| - 1, nblockMAX))
  }

  lemma NoneAdded(blocks: seq<Finished>, nblockMAX: int, usedUp: bool)
    ensures FullButLast(blocks, |blocks|, nblockMAX, usedUp) && Full(blocks, |blocks|, |blocks|, nblockMAX)
  {
  }

  lemma FullOne(before: seq<Finished>, after: seq<Finished>, nblockMAX: int, usedUp: bool)
    requires before <= after && |after| == |before| + 1 && nblockMAX <= |after[|before|].bytes|
    ensures FullButLast(after, |before|, nblockMAX, usedUp)
  {
  }

  lemma LastOne(before: seq<Finished>, after: seq<Finished>, nblockMAX: int)
    requires before <= after && |after| <= |before| + 1
    ensures FullButLast(after, |before|, nblockMAX, true)
  {
  }

  /** One more block at most, which is full or the last. */
  lemma OneAdded(first: int, before: seq<Finished>, after: seq<Finished>, nblockMAX: int, usedUp: bool)
    requires 0 <= first <= |before| && before <= after && |after| <= |before| + 1
    requires Full(before, first, |before|, nblockMAX) && FullButLast(after, |before|, nblockMAX, usedUp)
    ensures FullButLast(after, first, nblockMAX, usedUp)
  {
    forall i {:trigger after[i]} | first <= i < |before| ensures nblockMAX <= |after[i].bytes| {
      assert after[i] == before[i];
    }
  }

  class Compressor {
    const nblockMAX: int
    const step: (int, int) -> int
    const block: array<int>
    const inUse: array<bool>
    var nblock: int
    var blockCRC: int
    var stateInCh: int
    var stateInLen: int
    var state: State
    var mode: Mode
    var availInExpect: nat
    var numZ: nat
    var stateOutPos: nat
    ghost var runs: seq<Run>
    ghost var finished: seq<Finished>
    ghost var consumed: seq<int>
    ghost var ended: bool

    /** The block being filled, the pending run, and room for one more pair. */
    ghost predicate Filling()
      reads this`nblock, this`blockCRC, this`stateInCh, this`stateInLen, this`runs, block, inUse
    {
      && block.Length == nblockMAX + 19 && nblockMAX >= 99981 && inUse.Length == 256
      && Filled(block[..], nblock, inUse[..], blockCRC, step, runs)
      && PendingFits(runs, stateInCh, stateInLen)
      && nblock <= nblockMAX + 4
    }

    ghost function Seen(): (s: seq<int>)
      requires Filling()
      reads this`nblock, this`blockCRC, this`stateInCh, this`stateInLen, this`runs, block, inUse
    {
      Text(runs) + Pending(stateInCh, stateInLen)
    }

    /** Everything taken so far is in the finished blocks, the block being filled and the pending run. */
    ghost predicate Valid()
      reads this, block, inUse
    {
      && Ready() && History(finished, nblockMAX, step)
      && (state == Input ==> Filling() && nblock < nblockMAX && !ended)
      && consumed == AllText(finished) + (if state == Input then Seen() else Pending(stateInCh, stateInLen))
      && (ended ==> stateInCh == NONE && availInExpect == 0 && mode != Running && mode != Flushing)
      && (mode == Idle ==> ended)
      && (state == Output && !ended ==>
           stateInCh < NONE || mode == Flushing || (mode == Finishing && availInExpect > 0))
    }

    ghost predicate Ready()
      reads this
    {
      && block.Length == nblockMAX + 19 && nblockMAX >= 99981 && inUse.Length == 256
      && 0 <= stateInCh <= NONE && (stateInCh < NONE ==> 1 <= stateInLen <= 255)
           && (stateInCh == NONE ==> stateInLen == 0)
    }

    constructor (blockSize100k: int, step: (int, int) -> int)
      requires 1 <= blockSize100k <= 9
      ensures fresh(block) && fresh(inUse) && Valid() && consumed == [] && finished == []
      ensures state == Input && mode == Running
      ensures nblockMAX == 100000 * blockSize100k - 19 && this.step == step
    {
      nblockMAX := 100000 * blockSize100k - 19;
      this.step := step;
      block := new int[100000 * blockSize100k](_ => 0);
      inUse := new bool[256](_ => false);
      nblock, blockCRC, stateInCh, stateInLen, runs := 0, INITIAL_CRC, NONE, 0, [];
      state, mode, availInExpect, numZ, stateOutPos := Input, Running, 0, 0, 0;
      finished, consumed, ended := [], [], false;
      new;
      NothingFilled(block[..], inUse[..], step);
    }

    /** Starts an empty block; a pending run stays pending and will belong to it. */
    method PrepareNewBlock()
      requires block.Length == nblockMAX + 19 && nblockMAX >= 99981 && inUse.Length == 256
      requires 0 <= stateInCh <= NONE && (stateInCh < NONE ==> 1 <= stateInLen <= 255)
        && (stateInCh == NONE ==> stateInLen == 0)
      modifies this`nblock, this`numZ, this`stateOutPos, this`blockCRC, this`runs, inUse
      ensures Filling() && nblock == 0 && runs == [] && Seen() == Pending(stateInCh, stateInLen)
      ensures numZ == 0 && stateOutPos == 0
    {
      hide Filled;
      nblock, numZ, stateOutPos, blockCRC, runs := 0, 0, 0, INITIAL_CRC, [];
      var i := 0;
      while i < 256
        invariant 0 <= i <= 256 && forall c {:trigger inUse[c]} :: 0 <= c < i ==> !inUse[c]
        modifies inUse
      {
        inUse[i] := false;
        i := i + 1;
      }
      ghost var used := inUse[..];
      assert forall c {:trigger used[c]} :: 0 <= c < 256 ==> !used[c];
      NothingFilled(block[..], used, step);
    }

    /** Closes the pending run into the block. */
    method AddPair()
      requires Filling() && stateInCh < NONE
      modifies this`nblock, this`blockCRC, this`runs, block, inUse
      ensures block.Length == nblockMAX + 19 && nblockMAX >= 99981 && inUse.Length == 256
      ensures runs == old(runs) + [Equal(stateInCh, stateInLen)] && old(nblock) < nblock <= old(nblock) + 5
      ensures Filled(block[..], nblock, inUse[..], blockCRC, step, runs)
    {
      ghost var r := Equal(stateInCh, stateInLen);
      ghost var block0, nblock0, inUse0, crc0, runs0 := block[..], nblock, inUse[..], blockCRC, runs;
      AddToChecksum();
      inUse[stateInCh] := true;
      Write();
      runs := runs + [r];
      hide Filled, Stored;
      FilledMore(block0, nblock0, inUse0, crc0, step, runs0, r, block[..], nblock, inUse[..], blockCRC);
    }

    /** The bytes of the pending run, and the count's mark in inUse. */
    method Write()
      requires block.Length == nblockMAX + 19 && inUse.Length == 256 && 0 <= nblock <= nblockMAX + 4
      requires Legal(Equal(stateInCh, stateInLen))
      modifies this`nblock, block, inUse
      ensures nblock == old(nblock) + |Stored(Equal(stateInCh, stateInLen))|
      ensures block[..nblock] == old(block[..nblock]) + Stored(Equal(stateInCh, stateInLen))
      ensures inUse[..] == if stateInLen < 4 then old(inUse[..]) else old(inUse[..])[stateInLen - 4 := true]
    {
      hide Stored;
      StoredAs(block[..nblock], Equal(stateInCh, stateInLen));
      match stateInLen {
        case 1 =>
          Put(stateInCh);
        case 2 =>
          Put(stateInCh);
          Put(stateInCh);
        case 3 =>
          Put(stateInCh);
          Put(stateInCh);
          Put(stateInCh);
        case _ =>
          inUse[stateInLen - 4] := true;
          Put(stateInCh);
          Put(stateInCh);
          Put(stateInCh);
          Put(stateInCh);
          Put(stateInLen - 4);
      }
    }

    method Put(c: int)
      requires 0 <= nblock < block.Length
      modifies this`nblock, block
      ensures nblock == old(nblock) + 1 && block[..nblock] == old(block[..nblock]) + [c]
    {
      block[nblock] := c;
      nblock := nblock + 1;
    }

    method AddToChecksum()
      requires Filling() && stateInCh < NONE
      modifies this`blockCRC
      ensures blockCRC == Checksum(step, Text(runs) + Repeated(stateInCh, stateInLen))
    {
      ghost var t := Text(runs);
      ChecksumRun(step, t, stateInCh, 0);
      var i := 0;
      while i < stateInLen
        invariant 0 <= i <= stateInLen && blockCRC == Checksum(step, t + Repeated(stateInCh, i))
      {
        ChecksumRun(step, t, stateInCh, i);
        blockCRC := step(blockCRC, stateInCh);
        i := i + 1;
      }
    }

    /** ADD_CHAR_TO_BLOCK: the byte joins the pending run, or the pending run is closed and a new one begins. */
    method AddChar(c: int)
      requires Filling() && nblock < nblockMAX && 0 <= c < 256
      modifies this`nblock, this`blockCRC, this`runs, this`stateInCh, this`stateInLen, block, inUse
      ensures Filling() && stateInCh < NONE && old(nblock) <= nblock
      ensures Seen() == old(Seen()) + [c]
    {
      ghost var r, runs0 := Equal(stateInCh, stateInLen), runs;
      if c != stateInCh && stateInLen == 1 {
        CloseSingle();
        stateInCh := c;
        SeenNext(runs0, r, c);
      } else if c != stateInCh || stateInLen == 255 {
        if stateInCh < NONE {
          AddPair();
          SeenNext(runs0, r, c);
        } else {
          SeenFirst(runs, c);
        }
        stateInCh := c;
        stateInLen := 1;
      } else {
        SeenAgain(runs, r);
        stateInLen := stateInLen + 1;
      }
    }

    /** The fast track: closing a run of one byte. */
    method CloseSingle()
      requires Filling() && stateInCh < NONE && stateInLen == 1
      modifies this`nblock, this`blockCRC, this`runs, block, inUse
      ensures block.Length == nblockMAX + 19 && nblockMAX >= 99981 && inUse.Length == 256
      ensures runs == old(runs) + [Equal(stateInCh, 1)] && nblock == old(nblock) + 1
      ensures Filled(block[..], nblock, inUse[..], blockCRC, step, runs)
    {
      hide *;
      FillingParts();
      ghost var block0, nblock0, inUse0, crc0 := block[..], nblock, inUse[..], blockCRC;
      ghost var runs0, ch := runs, stateInCh;
      blockCRC := step(blockCRC, stateInCh);
      inUse[stateInCh] := true;
      Put(stateInCh);
      runs := runs + [Equal(stateInCh, 1)];
      SingleStored(block0, nblock0, inUse0, crc0, step, runs0, ch, block[..]);
    }

    lemma FillingParts()
      requires Filling()
      ensures block.Length == nblockMAX + 19 && nblockMAX >= 99981 && inUse.Length == 256
        && 0 <= nblock <= nblockMAX + 4
      ensures Filled(block[..], nblock, inUse[..], blockCRC, step, runs) && PendingFits(runs, stateInCh, stateInLen)
      ensures 0 <= stateInCh && NONE == inUse.Length
    {
    }

    /** flush_RL: closes the pending run, if any. */
    method FlushRL()
      requires Filling()
      modifies this`nblock, this`blockCRC, this`runs, this`stateInCh, this`stateInLen, block, inUse
      ensures block.Length == nblockMAX + 19 && nblockMAX >= 99981 && inUse.Length == 256
      ensures Filled(block[..], nblock, inUse[..], blockCRC, step, runs) && Tidy(runs)
      ensures Text(runs) == old(Seen()) && stateInCh == NONE && stateInLen == 0
      ensures nblock <= nblockMAX + 9
    {
      if stateInCh < NONE {
        Closed(runs, Equal(stateInCh, stateInLen));
        AddPair();
      }
      stateInCh, stateInLen := NONE, 0;
    }

    /** BZ2_compressBlock, as far as it is modelled: the block is handed over and leaves some output to copy. */
    method CompressBlock(isLast: bool)
      requires Ready() && state == Input && !ended && nblock <= nblockMAX + 9
      requires Filled(block[..], nblock, inUse[..], blockCRC, step, runs) && History(finished, nblockMAX, step)
      requires isLast ==> stateInCh == NONE && availInExpect == 0 && mode == Finishing
      requires stateInCh < NONE || mode == Flushing || mode == Finishing
      requires mode == Finishing && availInExpect == 0 ==> isLast
      requires mode != Idle && consumed == AllText(finished) + Text(runs) + Pending(stateInCh, stateInLen)
      modifies this`finished, this`ended, this`numZ, this`state
      ensures Valid() && state == Output && ended == isLast
      ensures finished == old(finished) + if nblock > 0 then [Finished(block[..nblock], runs, blockCRC)] else []
    {
      hide Filled, History, AllText, Text, Pending, Filling;
      FilledFrom(block[..], nblock, inUse[..], blockCRC, step, runs);
      ghost var f := Finished(block[..nblock], runs, blockCRC);
      assert f.bytes == block[..][..nblock];
      HandedOver(finished, block[..], nblock, inUse[..], blockCRC, step, runs, nblockMAX);
      if nblock > 0 {
        finished := finished + [f];
      } else {
        assert AllText(finished) + [] == AllText(finished);
      }
      ended := isLast;
      numZ := *;
      state := Output;
    }

    /**
     copy_input_until_stop: takes bytes until the block is full, the input is used up, or what a flush or
     finish asked for is used up.
     */
    method CopyInput(input: seq<int>) returns (progress: bool, rest: seq<int>)
      requires Filling() && nblock < nblockMAX && Bytes(input)
      requires mode != Running ==> availInExpect == |input|
      requires consumed == AllText(finished) + Seen()
      modifies this`nblock, this`blockCRC, this`runs, this`stateInCh, this`stateInLen, this`consumed,
               this`availInExpect, block, inUse
      ensures Filling() && consumed == AllText(finished) + Seen()
      ensures Taken(input, rest, old(consumed), consumed)
      ensures progress <==> |rest| < |input|
      ensures nblock >= nblockMAX || rest == []
      ensures input != [] ==> |rest| < |input| && stateInCh < NONE
      ensures input == [] ==> stateInCh == old(stateInCh) && nblock == old(nblock)
      ensures mode != Running ==> availInExpect == |rest|
      ensures mode == Running ==> availInExpect == old(availInExpect)
    {
      hide *;
      progress, rest := false, input;
      TakenNone(input, consumed);
      while true
        invariant Filling() && consumed == AllText(finished) + Seen()
        invariant Taken(input, rest, old(consumed), consumed) && Bytes(rest) && |rest| <= |input|
        invariant progress <==> |rest| < |input|
        invariant |rest| == |input| ==> nblock < nblockMAX && stateInCh == old(stateInCh) && nblock == old(nblock)
        invariant |rest| < |input| ==> stateInCh < NONE
        invariant if mode != Running then availInExpect == |rest| else availInExpect == old(availInExpect)
        decreases |rest|
      {
        if nblock >= nblockMAX { break; }
        if |rest| == 0 { break; }
        if mode != Running && availInExpect == 0 { break; }
        progress := true;
        var c := rest[0];
        TakenOne(input, rest, old(consumed), consumed);
        ghost var done, seen := AllText(finished), Seen();
        AddChar(c);
        assert done + (seen + [c]) == done + seen + [c];
        consumed := consumed + [c];
        rest := rest[1..];
        if mode != Running { availInExpect := availInExpect - 1; }
      }
    }

    /** copy_output_until_stop: copies compressed bytes while there is room and something left. */
    method CopyOutput(space0: nat) returns (progress: bool, space: nat)
      modifies this`stateOutPos
      ensures space == 0 || stateOutPos >= numZ
      ensures old(stateOutPos) <= stateOutPos && stateOutPos - old(stateOutPos) == space0 - space
      ensures progress <==> space < space0
    {
      progress, space := false, space0;
      while true
        invariant space <= space0 && old(stateOutPos) <= stateOutPos && stateOutPos - old(stateOutPos) == space0 - space
        invariant progress <==> space < space0
        decreases space
      {
        if space == 0 { break; }
        if stateOutPos >= numZ { break; }
        progress := true;
        stateOutPos := stateOutPos + 1;
        space := space - 1;
      }
    }

    function IsEmptyRL(): bool
      reads this`stateInCh, this`stateInLen
    {
      !(stateInCh < NONE && stateInLen > 0)
    }

    /** The output half of handle_compress; not stopping, it leaves an empty block ready for input. */
    method OutputHalf(space0: nat) returns (stop: bool, moved: bool, space: nat)
      requires Valid() && state == Output && mode != Idle
      modifies this`stateOutPos, this`nblock, this`numZ, this`blockCRC, this`runs, this`state, inUse
      ensures Valid() && space <= space0
      ensures !stop ==> state == Input && nblock == 0 && !(mode != Running && availInExpect == 0 && IsEmptyRL())
      ensures stop ==> (state == Output && stateOutPos < numZ) ||
                       (mode == Finishing && availInExpect == 0 && IsEmptyRL() && state == Output && ended) ||
                       (mode == Flushing && availInExpect == 0 && IsEmptyRL() && state == Input && nblock == 0)
    {
      hide History, AllText, Filled, Text, Pending, PendingFits;
      stop := false;
      moved, space := CopyOutput(space0);
      if stateOutPos < numZ { stop := true; return; }
      if mode == Finishing && availInExpect == 0 && IsEmptyRL() { stop := true; return; }
      PrepareNewBlock();
      state := Input;
      if mode == Flushing && availInExpect == 0 && IsEmptyRL() { stop := true; return; }
    }

    /** The input that was announced is used up: the block is handed over as it is. */
    method EndBlock()
      requires Filling() && Ready() && state == Input && !ended && History(finished, nblockMAX, step)
      requires mode != Running && mode != Idle && availInExpect == 0 && consumed == AllText(finished) + Seen()
      modifies this`nblock, this`blockCRC, this`runs, this`stateInCh, this`stateInLen, this`finished, this`ended,
               this`numZ, this`state, block, inUse
      ensures Valid() && state == Output && IsEmptyRL()
      ensures old(finished) <= finished && |finished| <= |old(finished)| + 1
    {
      hide History, AllText, Filled, Text;
      FlushRL();
      FilledTidy(block[..], nblock, inUse[..], blockCRC, step, runs);
      assert AllText(finished) + Text(runs) + [] == AllText(finished) + Text(runs);
      CompressBlock(mode == Finishing);
    }

    /** The input half of handle_compress; not stopping, it has handed a block over. */
    method InputHalf(input: seq<int>) returns (stop: bool, moved: bool, rest: seq<int>)
      requires Valid() && state == Input && Bytes(input) && mode != Idle
      requires mode != Running ==> availInExpect == |input|
      modifies this`nblock, this`blockCRC, this`runs, this`stateInCh, this`stateInLen, this`consumed,
               this`availInExpect,
               this`finished, this`ended, this`numZ, this`state, block, inUse
      ensures old(finished) <= finished
      ensures |finished| <= |old(finished)| + 1
      ensures FullButLast(finished, |old(finished)|, nblockMAX, mode != Running && rest == [] && IsEmptyRL())
      ensures Valid() && Taken(input, rest, old(consumed), consumed) && |rest| <= |input|
      ensures mode != Running ==> availInExpect == |rest|
      ensures mode == Running ==> availInExpect == old(availInExpect)
      ensures stop ==> mode == Running && state == Input
      ensures !stop ==> state == Output && (|rest| < |input| || (mode != Running && availInExpect == 0 && IsEmptyRL()))
    {
      hide History, AllText, Filled, Text, Taken, FullButLast;
      ghost var blocks := finished;
      stop := false;
      moved, rest := CopyInput(input);
      FilledTidy(block[..], nblock, inUse[..], blockCRC, step, runs);
      if mode != Running && availInExpect == 0 {
        EndBlock();
        LastOne(blocks, finished, nblockMAX);
      } else if nblock >= nblockMAX {
        ghost var done, text, rest := AllText(finished), Text(runs), Pending(stateInCh, stateInLen);
        assert done + text + rest == done + (text + rest);
        CompressBlock(false);
        FullOne(blocks, finished, nblockMAX, mode != Running && rest == [] && IsEmptyRL());
      } else {
        assert rest == [];
        NoneAdded(blocks, nblockMAX, mode != Running && rest == [] && IsEmptyRL());
        stop := true;
      }
    }

    /** handle_compress: moves between taking input and giving output until neither can go on. */
    method HandleCompress(input: seq<int>, space0: nat) returns (progress: bool, rest: seq<int>, space: nat)
      requires Valid() && Bytes(input) && mode != Idle
      requires mode != Running ==> availInExpect == |input|
      modifies this`nblock, this`blockCRC, this`runs, this`stateInCh, this`stateInLen, this`consumed,
               this`availInExpect,
               this`finished, this`ended, this`numZ, this`stateOutPos, this`state, block, inUse
      ensures old(finished) <= finished
      ensures Valid() && Taken(input, rest, old(consumed), consumed) && |rest| <= |input|
      ensures mode != Running ==> availInExpect == |rest|
      ensures mode == Running ==> availInExpect == old(availInExpect)
      ensures space <= space0
      ensures FullButLast(finished, |old(finished)|, nblockMAX, mode != Running && rest == [])
      ensures mode == Finishing && rest == [] && IsEmptyRL() && stateOutPos >= numZ ==> state == Output && ended
      ensures mode == Flushing && rest == [] && IsEmptyRL() && stateOutPos >= numZ ==> state == Input && nblock == 0
    {
      hide Filling, Filled, Seen, AllText, History, Taken, Valid, Ready;
      progress, rest, space := false, input, space0;
      var stop, moved := false, false;
      TakenNone(input, consumed);
      NoneAdded(finished, nblockMAX, false);
      while true
        invariant old(finished) <= finished
        invariant FullButLast(finished, |old(finished)|, nblockMAX,
                    state == Output && mode != Running && rest == [] && IsEmptyRL())
        invariant Valid() && Taken(input, rest, old(consumed), consumed) && Bytes(rest) && |rest| <= |input|
        invariant mode != Running ==> availInExpect == |rest|
        invariant mode == Running ==> availInExpect == old(availInExpect)
        invariant space <= space0
        decreases |rest|, if state == Output && mode != Running && |rest| == 0 && IsEmptyRL() then 0 else 1
      {
        if state == Output {
          stop, moved, space := OutputHalf(space);
          progress := progress || moved;
          if stop { break; }
        }
        ghost var before, consumed1, blocks := rest, consumed, finished;
        stop, moved, rest := InputHalf(rest);
        OneAdded(|old(finished)|, blocks, finished, nblockMAX, mode != Running && rest == [] && IsEmptyRL());
        progress := progress || moved;
        TakenOn(input, before, rest, old(consumed), consumed1, consumed);
        if stop { break; }
      }
    }

    /** BZ2_bzCompress: one call with the bytes and the space the caller offers. */
    method Compress(action: Action, input: seq<int>, space0: nat) returns (code: Code, rest: seq<int>, space: nat)
      requires Valid() && Bytes(input)
      modifies this`nblock, this`blockCRC, this`runs, this`stateInCh, this`stateInLen, this`consumed,
               this`availInExpect,
               this`finished, this`ended, this`numZ, this`stateOutPos, this`state, this`mode, block, inUse
      ensures old(finished) <= finished
      ensures if action == DoRun then Full(finished, |old(finished)|, |finished|, nblockMAX)
        else FullButLast(finished, |old(finished)|, nblockMAX, rest == [])
      ensures Valid() && Taken(input, rest, old(consumed), consumed) && space <= space0
      ensures code == StreamEnd ==>
        mode == Idle && ended && rest == [] && stateOutPos >= numZ && consumed == AllText(finished)
      ensures mode == Idle ==> code == StreamEnd || old(mode) == Idle
      ensures code == RunOk && action == DoFlush ==> mode == Running && rest == [] && consumed == AllText(finished)
    {
      hide Filling, Filled, AllText, History, Taken;
      rest, space := input, space0;
      TakenNone(input, consumed);
      NoneAdded(finished, nblockMAX, rest == []);
      if mode == Idle { return SequenceError, rest, space; }
      if mode == Running {
        if action == DoRun {
          var progress;
          progress, rest, space := HandleCompress(input, space0);
          return if progress then RunOk else ParamError, rest, space;
        }
        availInExpect := |input|;
        mode := if action == DoFlush then Flushing else Finishing;
      }
      if mode == Flushing {
        if action != DoFlush { return SequenceError, rest, space; }
        code, rest, space := GoOnFlushing(input, space0);
      } else {
        if action != DoFinish { return SequenceError, rest, space; }
        code, rest, space := GoOnFinishing(input, space0);
      }
    }

    method GoOnFlushing(input: seq<int>, space0: nat) returns (code: Code, rest: seq<int>, space: nat)
      requires Valid() && Bytes(input) && mode == Flushing
      modifies this`nblock, this`blockCRC, this`runs, this`stateInCh, this`stateInLen, this`consumed,
               this`availInExpect,
               this`finished, this`ended, this`numZ, this`stateOutPos, this`state, this`mode, block, inUse
      ensures old(finished) <= finished
      ensures FullButLast(finished, |old(finished)|, nblockMAX, rest == [])
      ensures Valid() && Taken(input, rest, old(consumed), consumed) && space <= space0
      ensures code == RunOk || code == FlushOk || (code == SequenceError && rest == input)
      ensures code == RunOk ==> mode == Running && rest == [] && consumed == AllText(finished)
      ensures code != RunOk ==> mode == Flushing
    {
      hide Filling, Filled, AllText, History, Taken;
      if availInExpect != |input| {
        TakenNone(input, consumed);
        NoneAdded(finished, nblockMAX, input == []);
        return SequenceError, input, space0;
      }
      var progress;
      progress, rest, space := HandleCompress(input, space0);
      if availInExpect > 0 || !IsEmptyRL() || stateOutPos < numZ { return FlushOk, rest, space; }
      NothingSeen(block[..], nblock, inUse[..], blockCRC, step, runs) by { hide *; FillingFilled(); }
      mode := Running;
      code := RunOk;
    }

    method GoOnFinishing(input: seq<int>, space0: nat) returns (code: Code, rest: seq<int>, space: nat)
      requires Valid() && Bytes(input) && mode == Finishing
      modifies this`nblock, this`blockCRC, this`runs, this`stateInCh, this`stateInLen, this`consumed,
               this`availInExpect,
               this`finished, this`ended, this`numZ, this`stateOutPos, this`state, this`mode, block, inUse
      ensures old(finished) <= finished
      ensures FullButLast(finished, |old(finished)|, nblockMAX, rest == [])
      ensures Valid() && Taken(input, rest, old(consumed), consumed) && space <= space0
      ensures code == StreamEnd || code == FinishOk || code == SequenceError
      ensures code == StreamEnd ==>
        mode == Idle && ended && rest == [] && stateOutPos >= numZ && consumed == AllText(finished)
      ensures code != StreamEnd ==> mode == Finishing
    {
      hide Filling, Filled, AllText, History, Taken;
      if availInExpect != |input| {
        TakenNone(input, consumed);
        NoneAdded(finished, nblockMAX, input == []);
        return SequenceError, input, space0;
      }
      var progress;
      progress, rest, space := HandleCompress(input, space0);
      if !progress { return SequenceError, rest, space; }
      if availInExpect > 0 || !IsEmptyRL() || stateOutPos < numZ { return FinishOk, rest, space; }
      mode := Idle;
      code := StreamEnd;
    }

    lemma FillingFilled()
      requires Filling()
      ensures Filled(block[..], nblock, inUse[..], blockCRC, step, runs)
    {
    }
  }

  lemma NothingSeen(block: seq<int>, nblock: int, inUse: seq<bool>, crc: int, step: (int, int) -> int, runs: seq<Run>)
    requires Filled(block, nblock, inUse, crc, step, runs) && nblock == 0
    ensures runs == [] && Text(runs) == []
  {
  }

  /** The bytes of input in front of rest have been added to before. */
  ghost predicate Taken(input: seq<int>, rest: seq<int>, before: seq<int>, after: seq<int>) {
    && |rest| <= |input| && rest == input[|input| - |rest|..]
    && after == before + input[..|input| - |rest|]
  }

  lemma TakenNone(input: seq<int>, before: seq<int>)
    ensures Taken(input, input, before, before)
  {
  }

  lemma TakenOne(input: seq<int>, rest: seq<int>, before: seq<int>, after: seq<int>)
    requires Taken(input, rest, before, after) && rest != [] && Bytes(rest)
    ensures Taken(input, rest[1..], before, after + [rest[0]]) && Bytes(rest[1..]) && 0 <= rest[0] < 256
  {
    var k := |input| - |rest|;
    assert rest[0] == input[k] && input[..k + 1] == input[..k] + [rest[0]];
  }

  lemma SlicesJoin(s: seq<int>, k: int, j: int)
    requires 0 <= k <= j <= |s|
    ensures s[..j] == s[..k] + s[k..][..j - k] && s[k..][j - k..] == s[j..]
  {
  }

  lemma TakenOn(input: seq<int>, middle: seq<int>, rest: seq<int>, before: seq<int>, between: seq<int>, after: seq<int>)
    requires Taken(input, middle, before, between) && Taken(middle, rest, between, after) && Bytes(middle)
    ensures Taken(input, rest, before, after) && Bytes(rest)
  {
    var k, j := |input| - |middle|, |input| - |rest|;
    SlicesJoin(input, k, j);
    hide *;
    assert before + (input[..k] + middle[..j - k]) == (before + input[..k]) + middle[..j - k];
  }

  /** Handing the block over moves its text from the block to the finished ones; an empty block leaves no trace. */
  /** A run of one byte, put behind the block. */
  lemma SingleStored(block: seq<int>, nblock: int, inUse: seq<bool>, crc: int, step: (int, int) -> int, runs: seq<Run>,
                     ch: int, after: seq<int>)
    requires Filled(block, nblock, inUse, crc, step, runs) && PendingFits(runs, ch, 1) && 0 <= ch < NONE
    requires 0 <= nblock <= |block| && nblock + 1 <= |after| && after[..nblock + 1] == block[..nblock] + [ch]
    ensures |inUse| == 256 && Filled(after, nblock + 1, inUse[ch := true], step(crc, ch), step, runs + [Equal(ch, 1)])
  {
    var r := Equal(ch, 1);
    FilledFrom(block, nblock, inUse, crc, step, runs);
    hide Filled, Text, Stored;
    StoredAs(block[..nblock], r);
    ChecksumRun(step, Text(runs), ch, 0);
    FilledMore(block, nblock, inUse, crc, step, runs, r, after, nblock + 1, inUse[ch := true], step(crc, ch));
  }

  lemma FilledFrom(block: seq<int>, nblock: int, inUse: seq<bool>, crc: int, step: (int, int) -> int, runs: seq<Run>)
    requires Filled(block, nblock, inUse, crc, step, runs)
    ensures 0 <= nblock <= |block| && |inUse| == 256 && crc == Checksum(step, Text(runs))
  {
  }

  lemma HandedOver(finished: seq<Finished>, block: seq<int>, nblock: int, inUse: seq<bool>, crc: int,
                   step: (int, int) -> int, runs: seq<Run>, nblockMAX: int)
    requires Filled(block, nblock, inUse, crc, step, runs) && History(finished, nblockMAX, step)
      && nblock <= nblockMAX + 9
    ensures nblock == 0 ==> Text(runs) == []
    ensures nblock > 0 ==> History(finished + [Finished(block[..nblock], runs, crc)], nblockMAX, step)
    ensures nblock > 0 ==> AllText(finished + [Finished(block[..nblock], runs, crc)]) == AllText(finished) + Text(runs)
  {
    if nblock > 0 {
      var blocks := finished + [Finished(block[..nblock], runs, crc)];
      assert blocks[..|blocks| - 1] == finished;
    }
  }

  lemma SeenNext(runs: seq<Run>, r: Run, c: int)
    requires Tidy(runs) && Follows(runs, r) && 0 <= c < 256 && (c != r.ch || r.len == 255)
    ensures Tidy(runs + [r]) && PendingFits(runs + [r], c, 1)
    ensures Text(runs + [r]) + Pending(c, 1) == Text(runs) + Pending(r.ch, r.len) + [c]
  {
    Closed(runs, r);
    assert Pending(c, 1) == [c];
  }

  lemma SeenFirst(runs: seq<Run>, c: int)
    requires runs == [] && 0 <= c < 256
    ensures PendingFits(runs, c, 1) && Text(runs) + Pending(c, 1) == Text(runs) + Pending(NONE, 0) + [c]
  {
    assert Pending(c, 1) == [c];
  }

  lemma SeenAgain(runs: seq<Run>, r: Run)
    requires Tidy(runs) && PendingFits(runs, r.ch, r.len) && r.ch < NONE && r.len < 255
    ensures PendingFits(runs, r.ch, r.len + 1)
    ensures Text(runs) + Pending(r.ch, r.len + 1) == Text(runs) + Pending(r.ch, r.len) + [r.ch]
  {
    assert Repeated(r.ch, r.len + 1) == Repeated(r.ch, r.len) + [r.ch];
  }
}