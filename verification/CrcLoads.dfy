/**
 Machine words of up to eight bytes, lowest byte first: the bytes a word was loaded from, and what becomes of them when
 a register is added to its low end (dep/zlib/crc32.c:90-99, 726-732).
 */
module CrcLoads {
  import opened CrcWord
  import opened CrcField
  import opened CrcState

  function Foot(w: bv64): bv8 { (w & 0xff) as bv8 }

  function Tail(w: bv64): bv64 { w >> 8 }

  /** The byte at shift k << 3. */
  function ByteAt(w: bv64, k: nat): bv8
    requires k < 8
  {
    ((w >> ((k as bv64) << 3)) & 0xff) as bv8
  }

  /** The lowest n bytes. */
  function Bytes(w: bv64, n: nat): (s: seq<bv8>)
    ensures |s| == n
    decreases n
  {
    if n == 0 then [] else [Foot(w)] + Bytes(Tail(w), n - 1)
  }

  /** The word without them. */
  function Drop(w: bv64, n: nat): bv64
    decreases n
  {
    if n == 0 then w else Drop(Tail(w), n - 1)
  }

  function Attach(b: bv8, w: bv64): bv64 { (b as bv64) | (w << 8) }

  /** The word loaded from memory with the lowest byte first. */
  function Load(s: seq<bv8>): bv64 {
    if s == [] then 0 else Attach(s[0], Load(s[1..]))
  }

  /** The register added to the low end of the word. */
  function Mix(r: bv32, w: bv64): bv64 { (r as bv64) ^ w }

  /** The register without its lowest n bytes. */
  function Fall(r: bv32, n: nat): bv32
    decreases n
  {
    if n == 0 then r else Fall(Shift8(r), n - 1)
  }

  // ----- bytes of a word ------------------------------------------------------------------------------------------

  lemma {:induction false} DropSum(w: bv64, m: nat, n: nat)
    ensures Drop(w, m + n) == Drop(Drop(w, m), n)
    decreases m
  {
    hide Tail;
    if m > 0 { DropSum(Tail(w), m - 1, n); }
  }

  lemma {:induction false} DropNothing(n: nat)
    ensures Drop(0, n) == 0
    decreases n
  {
    if n > 0 { DropNothing(n - 1); }
  }

  lemma DropRaw(w: bv64)
    ensures Drop(w, 7) == w >> 56
  {
    hide *;
    DropThree(w);
    DropThree(w >> 24);
    DropSum(w, 3, 3);
    DropSum(w, 6, 1);
    DropOne(Drop(w, 6));
    TailRaw(w);
  }

  lemma DropThree(w: bv64)
    ensures Drop(w, 3) == w >> 24
  {
    assert Drop(w, 2) == w >> 16;
    DropSum(w, 2, 1);
    assert Drop(w >> 16, 1) == w >> 24;
  }

  lemma TailRaw(w: bv64)
    ensures Tail((w >> 24) >> 24) == w >> 56
  {
  }

  lemma DropOne(w: bv64)
    ensures Drop(w, 1) == Tail(w) && Drop(w, 0) == w
  {
  }

  lemma Attached(b: bv8, w: bv64)
    requires w >> 56 == 0
    ensures Foot(Attach(b, w)) == b && Tail(Attach(b, w)) == w
  {
  }

  /** The bytes a word is loaded from are its bytes, and it has no others. */
  lemma {:induction false} LoadBytes(s: seq<bv8>)
    requires |s| <= 8
    ensures Bytes(Load(s), |s|) == s && Drop(Load(s), |s|) == 0
    decreases |s|
  {
    hide Foot, Tail, Attach;
    if s != [] {
      var t := s[1..];
      LoadBytes(t);
      DropSum(Load(t), |t|, 7 - |t|);
      DropNothing(7 - |t|);
      DropRaw(Load(t));
      Attached(s[0], Load(t));
      assert s == [s[0]] + t;
    }
  }

  lemma NextByte(w: bv64, k: nat)
    requires 0 < k < 8
    ensures ByteAt(w, k) == ByteAt(Tail(w), k - 1)
  {
    hide *;
    match k
    case 1 => Next1(w);
    case 2 => Next2(w);
    case 3 => Next3(w);
    case 4 => Next4(w);
    case 5 => Next5(w);
    case 6 => Next6(w);
    case _ => Next7(w);
  }

  lemma Next1(w: bv64)
    ensures ByteAt(w, 1) == ByteAt(Tail(w), 0)
  {
  }

  lemma Next2(w: bv64)
    ensures ByteAt(w, 2) == ByteAt(Tail(w), 1)
  {
  }

  lemma Next3(w: bv64)
    ensures ByteAt(w, 3) == ByteAt(Tail(w), 2)
  {
  }

  lemma Next4(w: bv64)
    ensures ByteAt(w, 4) == ByteAt(Tail(w), 3)
  {
  }

  lemma Next5(w: bv64)
    ensures ByteAt(w, 5) == ByteAt(Tail(w), 4)
  {
  }

  lemma Next6(w: bv64)
    ensures ByteAt(w, 6) == ByteAt(Tail(w), 5)
  {
  }

  lemma Next7(w: bv64)
    ensures ByteAt(w, 7) == ByteAt(Tail(w), 6)
  {
  }

  lemma FirstByte(w: bv64)
    ensures ByteAt(w, 0) == Foot(w)
  {
  }

  lemma {:induction false} BytesAt(w: bv64, n: nat, k: nat)
    requires k < n <= 8
    ensures Bytes(w, n)[k] == ByteAt(w, k) && Bytes(w, n)[k] == Foot(Drop(w, k))
    decreases n
  {
    hide Foot, Tail, ByteAt;
    if k == 0 {
      FirstByte(w);
    } else {
      NextByte(w, k);
      BytesAt(Tail(w), n - 1, k - 1);
    }
  }

  // ----- a register added to a word -------------------------------------------------------------------------------

  lemma MixTail(r: bv32, w: bv64)
    ensures Tail(Mix(r, w)) == Mix(Shift8(r), Tail(w))
    ensures Foot(Mix(r, w)) == Low(Xor(r, Wide(Foot(w))))
    ensures Wide(Foot(Mix(r, w))) == Xor(Wide(Low(r)), Wide(Foot(w)))
  {
    hide *;
    TailMixed(r, w);
    FootMixed(r, w);
    FootSum(r, w);
  }

  lemma TailMixed(r: bv32, w: bv64)
    ensures Tail(Mix(r, w)) == Mix(Shift8(r), Tail(w))
  {
  }

  lemma FootMixed(r: bv32, w: bv64)
    ensures Foot(Mix(r, w)) == Low(Xor(r, Wide(Foot(w))))
  {
  }

  lemma FootSum(r: bv32, w: bv64)
    ensures Wide(Foot(Mix(r, w))) == Xor(Wide(Low(r)), Wide(Foot(w)))
  {
  }

  lemma MixMore(q: bv32, r: bv32, w: bv64)
    ensures Mix(q, Mix(r, w)) == Mix(Xor(q, r), w)
    ensures Mix(0, w) == w && Mix(r, 0) == r as bv64
  {
  }

  lemma {:induction false} MixDrop(r: bv32, w: bv64, n: nat)
    ensures Drop(Mix(r, w), n) == Mix(Fall(r, n), Drop(w, n))
    decreases n
  {
    hide Mix, Tail, Shift8;
    if n > 0 {
      MixTail(r, w);
      MixDrop(Shift8(r), Tail(w), n - 1);
    }
  }

  lemma FallRaw(r: bv32)
    ensures Fall(r, 4) == 0
  {
    assert Fall(r, 2) == r >> 16 && Fall(r >> 16, 2) == 0;
    assert Fall(r, 4) == Fall(Shift8(r), 3) == Fall(Shift8(Shift8(r)), 2);
  }

  lemma {:induction false} FallAway(r: bv32, n: nat)
    requires n >= 4
    ensures Fall(r, n) == 0
    decreases n
  {
    hide Shift8;
    if n == 4 { FallRaw(r); } else { FallAway(Shift8(r), n - 1); }
  }

  lemma StateOne(r: bv32, b: bv8)
    ensures State(r, [b]) == Iter(8, Xor(r, Wide(b)))
  {
    hide *;
    StateNext(r, [], b);
    assert [] + [b] == [b];
  }

  /** The low byte of a register added to the byte, and the rest shifted down, is the register taking the byte in. */
  lemma MixByte(q: bv32, r: bv32, w: bv64)
    ensures Xor(State(q, [Foot(Mix(r, w))]), Shift8(r)) == State(Xor(q, r), [Foot(w)])
  {
    hide *;
    var f, l, h := Wide(Foot(w)), Wide(Low(r)), High(r);
    StateOne(q, Foot(Mix(r, w)));
    StateOne(Xor(q, r), Foot(w));
    MixTail(r, w);
    HighParts(r);
    HighClear(r);
    EvenSteps(h, 8);
    IterAdds(8, Xor(q, Xor(l, f)), h);
    Assoc(q, r, f);
    Assoc(q, Xor(l, f), h);
    Assoc(h, l, f);
    Comm(h, Xor(l, f));
  }

  lemma HeadOff(w: bv64, n: nat)
    requires n > 0
    ensures Bytes(w, n) == [Foot(w)] + Bytes(Tail(w), n - 1)
  {
  }

  /** A register added to a word of enough bytes is the register started from. */
  lemma {:induction false} MixState(q: bv32, r: bv32, w: bv64, n: nat)
    requires Fall(r, n) == 0
    ensures State(q, Bytes(Mix(r, w), n)) == State(Xor(q, r), Bytes(w, n))
    decreases n
  {
    if n == 0 {
      hide State, Iter;
      Zero(q);
      StateNext(q, [], 0);
    } else {
      hide State, Iter, Mix, Xor, Shift8, Foot, Tail, Bytes;
      var m := Mix(r, w);
      MixTail(r, w);
      HeadOff(m, n);
      HeadOff(w, n);
      StateAppend(q, [Foot(m)], Bytes(Tail(m), n - 1));
      StateAppend(Xor(q, r), [Foot(w)], Bytes(Tail(w), n - 1));
      MixByte(q, r, w);
      MixState(State(q, [Foot(m)]), Shift8(r), Tail(w), n - 1);
    }
  }

  /** Taking in the bytes of the word and register together is taking in the message from that register. */
  lemma Mixed(r: bv32, s: seq<bv8>)
    requires 4 <= |s| <= 8
    ensures State(0, Bytes(Mix(r, Load(s)), |s|)) == State(r, s) && Drop(Mix(r, Load(s)), |s|) == 0
  {
    hide *;
    FallAway(r, |s|);
    LoadBytes(s);
    MixState(0, r, Load(s), |s|);
    MixDrop(r, Load(s), |s|);
    MixMore(0, 0, 0);
    Zero(r);
  }

  /** One step on the word itself: its lowest byte is looked up and added to the rest. */
  lemma WordStep(word: bv64, n: nat, k: nat)
    requires k < n <= 8
    ensures var d := Mix(State(0, Bytes(word, n)[..k]), Drop(word, k));
      Mix(Iter(8, Wide(Foot(d))), Tail(d)) == Mix(State(0, Bytes(word, n)[..k + 1]), Drop(word, k + 1))
  {
    hide *;
    var s, w := Bytes(word, n), Drop(word, k);
    var r := State(0, s[..k]);
    assert s[..k + 1] == s[..k] + [s[k]];
    BytesAt(word, n, k);
    DropSum(word, k, 1);
    DropOne(w);
    TableStep(0, s[..k], s[k]);
    MixTail(r, w);
    MixMore(Iter(8, Wide(Foot(Mix(r, w)))), Shift8(r), Tail(w));
    Comm(Shift8(r), Iter(8, Wide(Foot(Mix(r, w)))));
  }
}
