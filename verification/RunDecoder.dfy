/**
 The decompressing side of bzip2's run-length stage, resumable at any byte of output, in the fast and the
 small form (dep/bzip2/bzlib.c:589-680, 700-804). The inverse transform that delivers the bytes of the
 block is seen as the sequence of bytes it delivers.
 */
module RunDecoder {
  import opened Rotations
  import opened MoveToFront
  import opened RunLength

  function Total(rooms: seq<nat>): nat {
    if rooms == [] then 0 else rooms[0] + Total(rooms[1..])
  }

  lemma TotalIs(rooms: seq<nat>)
    ensures Total(rooms) == if rooms == [] then 0 else rooms[0] + Total(rooms[1..])
  {
  }

  class Decoder {
    const data: seq<int>
    const saveNblock: int
    var nblockUsed: int
    var k0: int
    var stateOutCh: int
    var stateOutLen: int

    ghost predicate Valid()
      reads this
    {
      && 0 <= saveNblock && saveNblock + 2 <= |data| && Bytes(data) && 1 <= nblockUsed <= saveNblock + 2
      && Going(nblockUsed, k0, stateOutCh, stateOutLen)
    }

    ghost predicate Going(used: int, k0: int, ch: int, len: int) {
      && (1 <= used <= saveNblock && used <= |data| ==> k0 == data[used - 1])
      && 0 <= len && (len > 0 ==> 0 <= ch < 256)
    }

    /** What is still to be written: the run under way, then the rest of the block. */
    ghost function Left(used: int, ch: int, len: int): Unpacked
      requires 0 <= saveNblock && saveNblock + 2 <= |data| && Bytes(data) && 1 <= used <= saveNblock + 2 && 0 <= len
    {
      Before(Repeated(ch, len), Unpack(data, saveNblock, used - 1))
    }

    ghost function Remaining(): Unpacked
      requires Valid()
      reads this
    {
      Left(nblockUsed, stateOutCh, stateOutLen)
    }

    /** The state a block starts in, its first byte already taken. */
    constructor (data: seq<int>, saveNblock: int)
      requires 0 <= saveNblock && saveNblock + 2 <= |data| && Bytes(data)
      ensures Valid() && Remaining() == Unpack(data, saveNblock, 0)
      ensures this.data == data && this.saveNblock == saveNblock
    {
      this.data, this.saveNblock := data, saveNblock;
      nblockUsed, k0, stateOutCh, stateOutLen := 1, data[0], 0, 0;
    }

    /** Takes the next run off the block, testing for a different byte before testing for the end. */
    method StartFast(used0: int, k00: int) returns (used: int, k0: int, ch: int, len: int)
      requires 0 <= saveNblock && saveNblock + 2 <= |data| && Bytes(data) && 1 <= used0 <= saveNblock
        && k00 == data[used0 - 1]
      ensures used0 < used <= saveNblock + 2 && Going(used, k0, ch, len) && len > 0
      ensures Left(used, ch, len) == Unpack(data, saveNblock, used0 - 1)
    {
      used, k0, ch := used0, k00, k00;
      var k1 := data[used]; used := used + 1;
      if k1 != k0 { return used, k1, ch, 1; }
      if used == saveNblock + 1 { return used, k0, ch, 1; }
      len := 2;
      k1 := data[used]; used := used + 1;
      if used == saveNblock + 1 { return; }
      if k1 != k0 { k0 := k1; return; }
      len := 3;
      k1 := data[used]; used := used + 1;
      if used == saveNblock + 1 { return; }
      if k1 != k0 { k0 := k1; return; }
      k1 := data[used]; used := used + 1;
      len := k1 + 4;
      k0 := data[used]; used := used + 1;
    }

    /** The same, testing for the end first, as the small form does. */
    method StartSmall(used0: int, k00: int) returns (used: int, k0: int, ch: int, len: int)
      requires 0 <= saveNblock && saveNblock + 2 <= |data| && Bytes(data) && 1 <= used0 <= saveNblock
        && k00 == data[used0 - 1]
      ensures used0 < used <= saveNblock + 2 && Going(used, k0, ch, len) && len > 0
      ensures Left(used, ch, len) == Unpack(data, saveNblock, used0 - 1)
    {
      used, k0, ch := used0, k00, k00;
      len := 1;
      var k1 := data[used]; used := used + 1;
      if used == saveNblock + 1 { return; }
      if k1 != k0 { k0 := k1; return; }
      len := 2;
      k1 := data[used]; used := used + 1;
      if used == saveNblock + 1 { return; }
      if k1 != k0 { k0 := k1; return; }
      len := 3;
      k1 := data[used]; used := used + 1;
      if used == saveNblock + 1 { return; }
      if k1 != k0 { k0 := k1; return; }
      k1 := data[used]; used := used + 1;
      len := k1 + 4;
      k0 := data[used]; used := used + 1;
    }

    lemma LeftLength(used: int, ch: int, len: int)
      requires 0 <= saveNblock && saveNblock + 2 <= |data| && Bytes(data) && 1 <= used <= saveNblock + 2 && 0 <= len
      ensures |Left(used, ch, len).bytes| >= len
    {
    }

    lemma OneLess(used: int, ch: int, len: int, out: seq<int>)
      requires 0 <= saveNblock && saveNblock + 2 <= |data| && Bytes(data) && 1 <= used <= saveNblock + 2 && 1 <= len
      ensures out + Left(used, ch, len).bytes == (out + [ch]) + Left(used, ch, len - 1).bytes
      ensures Left(used, ch, len).corrupt == Left(used, ch, len - 1).corrupt
    {
      assert Repeated(ch, len) == [ch] + Repeated(ch, len - 1);
    }

    lemma NothingLeft(used: int, ch: int)
      requires 0 <= saveNblock && saveNblock + 2 <= |data| && Bytes(data) && 1 <= used <= saveNblock + 2
      ensures Left(used, ch, 0) == Unpack(data, saveNblock, used - 1)
      ensures used == saveNblock + 1 ==> Left(used, ch, 0) == Unpacked([], false)
      ensures used == saveNblock + 2 ==> Left(used, ch, 0) == Unpacked([], true)
    {
    }

    /** Writes the run under way, byte by byte, until it or the room is used up. */
    method FinishRun(ch: int, len0: int, space0: nat, out0: seq<int>, ghost used: int)
      returns (len: int, space: nat, out: seq<int>)
      requires 0 <= saveNblock && saveNblock + 2 <= |data| && Bytes(data) && 1 <= used <= saveNblock + 2 && 0 <= len0
      ensures 0 <= len <= len0 && space <= space0 && (len > 0 ==> space == 0)
      ensures out + Left(used, ch, len).bytes == out0 + Left(used, ch, len0).bytes
      ensures Left(used, ch, len).corrupt == Left(used, ch, len0).corrupt
      ensures |out| + space == |out0| + space0
    {
      hide Left;
      len, space, out := len0, space0, out0;
      while len > 0
        invariant 0 <= len <= len0 && space <= space0
        invariant out + Left(used, ch, len).bytes == out0 + Left(used, ch, len0).bytes
        invariant Left(used, ch, len).corrupt == Left(used, ch, len0).corrupt
        invariant |out| + space == |out0| + space0
      {
        if space == 0 { break; }
        OneLess(used, ch, len, out);
        out, len, space := out + [ch], len - 1, space - 1;
      }
    }

    /**
     unRLE_obuf_to_output_FAST: writes as much as there is room for. Corruption is reported as soon as
     everything before it has been written; the fields are then left as they were.
     */
    method OutputFast(space0: nat) returns (corrupt: bool, out: seq<int>)
      requires Valid()
      modifies this
      ensures Valid()
      ensures corrupt <==> old(Remaining()).corrupt && |old(Remaining()).bytes| <= space0
      ensures corrupt ==> out == old(Remaining()).bytes
      ensures !corrupt ==>
        out + Remaining().bytes == old(Remaining()).bytes && Remaining().corrupt == old(Remaining()).corrupt
      ensures !corrupt ==> |out| == space0 || (Remaining().bytes == [] && |out| < space0)
      ensures !corrupt ==> (nblockUsed == saveNblock + 1 && stateOutLen == 0 <==> Remaining() == Unpacked([], false))
    {
      hide Before, Unpack, Left, Repeated;
      var used, k, ch, len, space := nblockUsed, k0, stateOutCh, stateOutLen, space0;
      ghost var all := Remaining();
      out := [];
      while true
        invariant 1 <= used <= saveNblock + 2 && Going(used, k, ch, len)
        invariant out + Left(used, ch, len).bytes == all.bytes && Left(used, ch, len).corrupt == all.corrupt
        invariant |out| + space == space0
        decreases space, saveNblock + 2 - used
        modifies {}
      {
        len, space, out := FinishRun(ch, len, space, out, used);
        if len > 0 { LeftLength(used, ch, len); break; }
        NothingLeft(used, ch);
        if used > saveNblock + 1 { return true, out; }
        if used == saveNblock + 1 { break; }
        used, k, ch, len := StartFast(used, k);
      }
      nblockUsed, k0, stateOutCh, stateOutLen := used, k, ch, len;
      corrupt := false;
    }

    /** The same on the fields, testing for room before testing for the end of the run. */
    method WriteRun(space0: nat, out0: seq<int>) returns (space: nat, out: seq<int>)
      requires Valid()
      modifies this`stateOutLen
      ensures Valid() && space <= space0 && |out| + space == |out0| + space0 && (space > 0 ==> stateOutLen == 0)
      ensures out + Remaining().bytes == out0 + old(Remaining()).bytes
      ensures Remaining().corrupt == old(Remaining()).corrupt
    {
      hide Before, Unpack, Left, Repeated;
      space, out := space0, out0;
      ghost var all := Remaining();
      while true
        invariant Valid() && space <= space0 && |out| + space == |out0| + space0
        invariant out + Remaining().bytes == out0 + all.bytes && Remaining().corrupt == all.corrupt
        decreases stateOutLen
      {
        if space == 0 { return; }
        if stateOutLen == 0 { return; }
        OneLess(nblockUsed, stateOutCh, stateOutLen, out);
        out, stateOutLen, space := out + [stateOutCh], stateOutLen - 1, space - 1;
      }
    }

    /**
     unRLE_obuf_to_output_SMALL: the same bytes. It looks for corruption only while there is room left, so
     it may report it one call later than the fast form.
     */
    method OutputSmall(space0: nat) returns (corrupt: bool, out: seq<int>)
      requires Valid()
      modifies this
      ensures Valid()
      ensures corrupt <==> old(Remaining()).corrupt && |old(Remaining()).bytes| < space0
      ensures corrupt ==> out == old(Remaining()).bytes
      ensures !corrupt ==>
        out + Remaining().bytes == old(Remaining()).bytes && Remaining().corrupt == old(Remaining()).corrupt
      ensures !corrupt ==> |out| == space0 || (Remaining() == Unpacked([], false) && |out| < space0)
      ensures !corrupt ==> (nblockUsed == saveNblock + 1 && stateOutLen == 0 ==> Remaining() == Unpacked([], false))
    {
      var space := space0;
      ghost var all := Remaining();
      out := [];
      hide Before, Unpack, Left, Repeated;
      while true
        invariant Valid() && out + Remaining().bytes == all.bytes && Remaining().corrupt == all.corrupt
        invariant |out| + space == space0
        decreases space, saveNblock + 2 - nblockUsed
      {
        space, out := WriteRun(space, out);
        if space == 0 { return false, out; }
        NothingLeft(nblockUsed, stateOutCh);
        if nblockUsed == saveNblock + 1 { return false, out; }
        if nblockUsed > saveNblock + 1 { return true, out; }
        nblockUsed, k0, stateOutCh, stateOutLen := StartSmall(nblockUsed, k0);
      }
    }

    static lemma Drained(first: seq<int>, later: seq<int>, all: seq<int>, more: seq<int>, rest: seq<int>)
      requires first + later == all && more + rest == later
      ensures (first + more) + rest == all && |first| + |later| == |all|
    {
    }

    /**
     Any number of calls, each with its own room: together they write a prefix, and all of it once there was room for
     all.
     */
    method Drain(rooms: seq<nat>, small: bool) returns (corrupt: bool, out: seq<int>)
      requires Valid() && !Remaining().corrupt
      modifies this
      ensures Valid() && !corrupt && !Remaining().corrupt
      ensures out + Remaining().bytes == old(Remaining()).bytes
      ensures |out| == if Total(rooms) < |old(Remaining()).bytes| then Total(rooms) else |old(Remaining()).bytes|
      decreases |rooms|
    {
      hide *;
      out, corrupt := [], false;
      TotalIs(rooms);
      if rooms != [] {
        ghost var all := Remaining().bytes;
        var more;
        if small {
          corrupt, out := OutputSmall(rooms[0]);
        } else {
          corrupt, out := OutputFast(rooms[0]);
        }
        ghost var first, later := out, Remaining().bytes;
        corrupt, more := Drain(rooms[1..], small);
        Drained(first, later, all, more, Remaining().bytes);
        out := out + more;
      }
    }
  }

  /**
   A block that the encoder filled with these runs comes out as their text, whatever the inverse transform
   delivers after its last byte.
   */
  lemma BlockComesOut(runs: seq<Run>, after: seq<int>)
    requires Tidy(runs) && |after| >= 2 && Bytes(after)
    ensures Bytes(Storage(runs) + after)
    ensures Unpack(Storage(runs) + after, |Storage(runs)|, 0) == Unpacked(Text(runs), false)
  {
    var data := Storage(runs) + after;
    assert data[0..|Storage(runs)|] == Storage(runs);
    UnpackInverts(data, |Storage(runs)|, 0, runs);
  }

  /**
   The first call of either form on the same block: they differ just when what there is before the corruption fills
   the room.
   */
  method FirstCalls(data: seq<int>, saveNblock: int, room: nat) returns (fast: bool, small: bool)
    requires 0 <= saveNblock && saveNblock + 2 <= |data| && Bytes(data)
    ensures var u := Unpack(data, saveNblock, 0);
      (fast <==> u.corrupt && |u.bytes| <= room) && (small <==> u.corrupt && |u.bytes| < room)
      && (fast != small <==> u.corrupt && |u.bytes| == room)
  {
    hide *;
    var a := new Decoder(data, saveNblock);
    var b := new Decoder(data, saveNblock);
    var out;
    fast, out := a.OutputFast(room);
    small, out := b.OutputSmall(room);
  }

  /** Four equal bytes at the end of a block, whose count would lie behind it. */
  lemma CutOffRun()
    ensures Unpack([5, 5, 5, 5, 0, 0], 4, 0) == Unpacked([5, 5, 5, 5], true)
  {
    var data := [5, 5, 5, 5, 0, 0];
    assert Unpack(data, 4, 5) == Unpacked([], true);
    assert Unpack(data, 4, 0) == Before(Repeated(5, 4), Unpack(data, 4, 5));
    assert Repeated(5, 4) == [5, 5, 5, 5];
  }
}
