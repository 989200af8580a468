/**
 The CRC of zlib: a byte at a time, in braids of words, and for a message in two parts from the CRCs of the parts
 (dep/zlib/crc32.c:726-732, 748-905, 1029-1067, 1081-1126).
 */
module Crc {
  import opened CrcWord
  import opened CrcField
  import opened CrcPowers
  import opened CrcState
  import opened CrcLoads
  import opened CrcTables
  import opened CrcBraids
  import opened Powers

  const ALL: bv32 := 0xffff_ffff

  /** The CRC of a message that goes on from crc: the register is inverted before and after. */
  function Crc(crc: bv32, s: seq<bv8>): bv32 {
    Xor(State(Xor(crc, ALL), s), ALL)
  }

  function Up(a: bv32): bv32 { a << 8 }

  function Cut(a: bv64): bv32 { (a & 0xffff_ffff) as bv32 }

  // ----- two parts -----------------------------------------------------------------------------------------------

  lemma Twice(a: bv32)
    ensures Xor(Xor(a, ALL), ALL) == a
  {
  }

  /** Feeding the parts one after the other is feeding the whole, and feeding nothing changes nothing. */
  lemma CrcContinues(crc: bv32, s: seq<bv8>, t: seq<bv8>)
    ensures Crc(Crc(crc, s), t) == Crc(crc, s + t)
    ensures Crc(crc, []) == crc
  {
    hide Xor, State, ALL;
    Twice(State(Xor(crc, ALL), s));
    StateAppend(Xor(crc, ALL), s, t);
    StateNext(Xor(crc, ALL), [], 0);
    Twice(crc);
  }

  /** The CRC of the whole from those of the parts: the first times x to the bits of the second, plus the second. */
  lemma CrcJoins(crc: bv32, s: seq<bv8>, t: seq<bv8>)
    ensures Crc(crc, s + t) == Xor(Iter(8 * |t|, Crc(crc, s)), Crc(0, t))
  {
    hide Xor, State, Iter, ALL;
    var c, m := Crc(crc, s), Iter(8 * |t|, Crc(crc, s));
    CrcContinues(crc, s, t);
    Comm(c, ALL);
    Zero(ALL);
    StateAdds(ALL, c, t);
    Comm(State(ALL, t), m);
    Assoc(m, State(ALL, t), ALL);
  }

  /** A change to one byte of the message, or to any run of up to four, always shows in the CRC. */
  lemma ChangesShow(crc: bv32, p: seq<bv8>, a: seq<bv8>, b: seq<bv8>, q: seq<bv8>)
    requires |a| == |b| <= 4 && a != b
    ensures Crc(crc, p + a + q) != Crc(crc, p + b + q)
  {
    hide Xor, State, Iter, ALL;
    var r := Xor(crc, ALL);
    StateAppend(r, p + a, q);
    StateAppend(r, p + b, q);
    StateAppend(r, p, a);
    StateAppend(r, p, b);
    ShortDiffer(State(r, p), a, b);
    var c, d := State(State(r, p), a), State(State(r, p), b);
    StateKeepsApart(c, d, q);
    Twice(State(c, q));
    Twice(State(d, q));
  }

  lemma StateKeepsApart(c: bv32, d: bv32, q: seq<bv8>)
    requires c != d
    ensures State(c, q) != State(d, q)
  {
    hide Xor, State, Iter;
    StateAdds(d, Xor(d, c), q);
    SumBack(d, c);
    IterNonzero(8 * |q|, Xor(d, c));
    AddedDiffers(State(d, q), Iter(8 * |q|, Xor(d, c)));
  }

  lemma SumBack(d: bv32, c: bv32)
    requires c != d
    ensures Xor(d, Xor(d, c)) == c && Xor(d, c) != 0
  {
  }

  lemma AddedDiffers(a: bv32, e: bv32)
    requires e != 0
    ensures Xor(a, e) != a
  {
  }

  /** Up to four bytes fill the register without any running over, so different ones leave it different. */
  lemma ShortDiffer(r: bv32, a: seq<bv8>, b: seq<bv8>)
    requires |a| == |b| <= 4 && a != b
    ensures State(r, a) != State(r, b)
  {
    hide Xor, State, Iter;
    ShortState(r, a);
    ShortState(r, b);
    LoadBytes(a);
    LoadBytes(b);
    ShortLoad(a);
    ShortLoad(b);
    LoadsDiffer(r, Load(a), Load(b));
    var c, d := Xor(r, Cut(Load(a))), Xor(r, Cut(Load(b)));
    IterKeepsApart(8 * |a|, c, d);
  }

  lemma LoadsDiffer(r: bv32, v: bv64, w: bv64)
    requires v != w && v >> 32 == 0 && w >> 32 == 0
    ensures Xor(r, Cut(v)) != Xor(r, Cut(w))
  {
  }

  lemma IterKeepsApart(n: nat, c: bv32, d: bv32)
    requires c != d
    ensures Iter(n, c) != Iter(n, d)
  {
    hide Xor, Iter;
    SumBack(d, c);
    IterAdds(n, d, Xor(d, c));
    IterNonzero(n, Xor(d, c));
    AddedDiffers(Iter(n, d), Iter(n, Xor(d, c)));
  }

  lemma ShortLoad(s: seq<bv8>)
    requires |s| <= 4
    ensures Load(s) >> 32 == 0 && (|s| <= 3 ==> Load(s) >> 24 == 0)
  {
    hide *;
    var w, n := Load(s), |s|;
    LoadBytes(s);
    DropSum(w, n, 4 - n);
    DropNothing(4 - n);
    DropThree(w);
    DropSum(w, 3, 1);
    DropOne(Drop(w, 3));
    TailHigh(w);
    if n <= 3 {
      DropSum(w, n, 3 - n);
      DropNothing(3 - n);
    }
  }

  lemma TailHigh(w: bv64)
    ensures Tail(w >> 24) == w >> 32
  {
  }

  lemma AttachCut(b: bv8, w: bv64)
    requires w >> 24 == 0
    ensures Cut(Attach(b, w)) == Xor(Up(Cut(w)), Wide(b))
    ensures Up(Cut(w)) & 0xff == 0 && Shift8(Up(Cut(w))) == Cut(w)
  {
  }

  lemma LoadIs(s: seq<bv8>)
    requires s != []
    ensures Load(s) == Attach(s[0], Load(s[1..]))
  {
    hide Attach;
  }

  /** All of a short message can be added to the register first. */
  lemma {:induction false} ShortState(r: bv32, s: seq<bv8>)
    requires |s| <= 4
    ensures State(r, s) == Iter(8 * |s|, Xor(r, Cut(Load(s))))
    decreases |s|
  {
    if s == [] {
      NoState(r);
    } else {
      hide *;
      var b, t := s[0], s[1..];
      assert s == [b] + t;
      StateAppend(r, [b], t);
      StateOne(r, b);
      ShortState(State(r, [b]), t);
      ShortStep(r, s);
    }
  }

  lemma ShortStep(r: bv32, s: seq<bv8>)
    requires 0 < |s| <= 4
    ensures Iter(8 * |s[1..]|, Xor(Iter(8, Xor(r, Wide(s[0]))), Cut(Load(s[1..])))) ==
            Iter(8 * |s|, Xor(r, Cut(Load(s))))
  {
    hide *;
    var b, t := s[0], s[1..];
    LoadIs(s);
    ShortLoad(t);
    AttachCut(b, Load(t));
    var u := Up(Cut(Load(t)));
    ByteUp(u);
    IterAdds(8, Xor(r, Wide(b)), u);
    Assoc(r, Wide(b), u);
    Comm(u, Wide(b));
    IterSum(8 * |t|, 8, Xor(r, Cut(Load(s))));
  }

  lemma NoState(r: bv32)
    ensures State(r, []) == Iter(8 * 0, Xor(r, Cut(Load([]))))
  {
    assert Load([]) == 0;
    hide Xor;
    Zero(r);
  }

  // ----- the code ------------------------------------------------------------------------------------------------

  lemma Entry(t: seq<bv32>, b: bv8)
    requires ByteTable(t)
    ensures b as int < |t| && t[b as int] == Iter(8, Wide(b))
  {
    hide Iter, Wide;
  }

  lemma StepRaw(r: bv32, b: bv8)
    ensures (r ^ Wide(b)) & 0xff < 256
    ensures ((r ^ Wide(b)) & 0xff) as bv8 == Low(Xor(r, Wide(b)))
    ensures Shift8(Xor(r, Wide(b))) == r >> 8
  {
  }

  lemma AddRaw(c: bv32, d: bv32)
    ensures Xor(c, d) == c ^ d
  {
  }

  /** One byte, by the table. */
  method TakeByte(bytes: array<bv32>, crc: bv32, b: bv8) returns (r: bv32)
    requires ByteTable(bytes[..])
    ensures r == Iter(8, Xor(crc, Wide(b)))
  {
    hide *;
    StepRaw(crc, b);
    LookUp(Xor(crc, Wide(b)));
    var place := ((crc ^ Wide(b)) & 0xff) as bv8;
    Entry(bytes[..], place);
    AddRaw(crc >> 8, bytes[place as int]);
    r := (crc >> 8) ^ bytes[place as int];
  }

  /** The byte loops: the register takes in s from place at up to place end. */
  method Bytewise(bytes: array<bv32>, crc: bv32, s: seq<bv8>, at: nat, end: nat) returns (r: bv32)
    requires ByteTable(bytes[..]) && at <= end <= |s|
    ensures r == State(crc, s[at..end])
  {
    hide *;
    r := crc;
    var p := at;
    NoBytes(crc, s, at);
    while p < end
      invariant at <= p <= end && r == State(crc, s[at..p])
    {
      OneMore(crc, s, at, p);
      r := TakeByte(bytes, r, s[p]);
      p := p + 1;
    }
  }

  lemma NoBytes(r: bv32, s: seq<bv8>, at: nat)
    requires at <= |s|
    ensures State(r, s[at..at]) == r
  {
    hide Bits;
    assert s[at..at] == [];
  }

  lemma OneMore(r: bv32, s: seq<bv8>, at: nat, p: nat)
    requires at <= p < |s|
    ensures State(r, s[at..p + 1]) == Iter(8, Xor(State(r, s[at..p]), Wide(s[p])))
  {
    hide *;
    assert s[at..p + 1] == s[at..p] + [s[p]];
    StateNext(r, s[at..p], s[p]);
  }

  // ----- words -------------------------------------------------------------------------------------------------

  lemma WordRaw(d: bv64, e: bv32)
    ensures d & 0xff < 256 && (d & 0xff) as bv8 == Foot(d)
    ensures (d >> 8) ^ (e as bv64) == Mix(e, Tail(d))
  {
  }

  lemma WordStart(data: bv64, w: nat)
    ensures data == Mix(State(0, Bytes(data, w)[..0]), Drop(data, 0))
    ensures State(0, Bytes(data, w)[..0]) == 0
  {
    hide *;
    NoBytes(0, Bytes(data, w), 0);
    DropOne(data);
    MixMore(0, 0, data);
  }

  lemma WordNext(data: bv64, w: nat, k: nat, d: bv64, e: bv32)
    requires k < w <= 8 && d == Mix(State(0, Bytes(data, w)[..k]), Drop(data, k)) && e == Iter(8, Wide(Foot(d)))
    ensures (d >> 8) ^ (e as bv64) == Mix(State(0, Bytes(data, w)[..k + 1]), Drop(data, k + 1))
  {
    hide *;
    WordStep(data, w, k);
    WordRaw(d, e);
  }

  lemma WordEnd(r: bv32)
    ensures Mix(r, 0) == r as bv64 && Cut(r as bv64) == r
  {
  }

  /** The register after the bytes of one word, the word itself serving as the register. */
  method Word(bytes: array<bv32>, data: bv64, w: nat) returns (crc: bv32)
    requires ByteTable(bytes[..]) && w <= 8 && Drop(data, w) == 0
    ensures crc == State(0, Bytes(data, w))
  {
    hide *;
    var d := data;
    WordStart(data, w);
    for k := 0 to w
      invariant d == Mix(State(0, Bytes(data, w)[..k]), Drop(data, k))
    {
      WordRaw(d, 0);
      var place := (d & 0xff) as bv8;
      Entry(bytes[..], place);
      WordNext(data, w, k, d, bytes[place as int]);
      d := (d >> 8) ^ (bytes[place as int] as bv64);
    }
    assert Bytes(data, w)[..w] == Bytes(data, w);
    WordEnd(State(0, Bytes(data, w)));
    crc := Cut(d);
  }

  /** What the byte at k adds to a register that is moved past the words of the other braids. */
  lemma BraidStep(n: nat, word: bv64, w: nat, k: nat)
    requires n > 0 && k < w <= 8
    ensures Xor(Iter(Ahead(n, w, k), State(0, Bytes(word, w)[..k])), Iter(Ahead(n, w, k), Wide(ByteAt(word, k)))) ==
            Iter(Ahead(n, w, k + 1), State(0, Bytes(word, w)[..k + 1]))
  {
    hide *;
    var s, d := Bytes(word, w), Ahead(n, w, k);
    assert s[..k + 1] == s[..k] + [s[k]];
    BytesAt(word, w, k);
    StateNext(0, s[..k], s[k]);
    IterAdds(d, State(0, s[..k]), Wide(s[k]));
    IterSum(Ahead(n, w, k + 1), 8, Xor(State(0, s[..k]), Wide(s[k])));
  }

  lemma BraidFirst(n: nat, word: bv64, w: nat)
    requires n > 0 && 0 < w <= 8
    ensures Iter(Ahead(n, w, 0), Wide(ByteAt(word, 0))) == Iter(Ahead(n, w, 1), State(0, Bytes(word, w)[..1]))
  {
    hide *;
    WordStart(word, w);
    IterZero(Ahead(n, w, 0));
    BraidStep(n, word, w, 0);
    Zero(Iter(Ahead(n, w, 0), Wide(ByteAt(word, 0))));
  }

  lemma BraidEnd(n: nat, word: bv64, w: nat)
    requires n > 0
    ensures Bytes(word, w)[..w] == Bytes(word, w) && (n - 1) * w >= 0 && Ahead(n, w, w) == 8 * ((n - 1) * w)
  {
    hide *;
    FirstWord(n, w);
  }

  lemma BraidTop(t: array2<bv32>, n: nat, w: nat, k: nat, b: bv8)
    requires BraidTable(t, n, w) && k < w
    ensures n > 0 && t.Length0 == w && t.Length1 == 256 && b as int < 256
    ensures t[k, b as int] == Iter(Ahead(n, w, k), Wide(b))
  {
    hide Iter, Wide;
    assert BraidRow(t, n, w, k, 256);
    IndexBelow(b);
  }

  /** A word by the tables of its braid: the register after it, moved past the words of the other braids. */
  method Braided(braids: array2<bv32>, word: bv64, n: nat, w: nat) returns (crc: bv32)
    requires BraidTable(braids, n, w) && 0 < w <= 8
    ensures n > 0 && (n - 1) * w >= 0 && crc == Iter(8 * ((n - 1) * w), State(0, Bytes(word, w)))
  {
    hide *;
    BraidTop(braids, n, w, 0, ByteAt(word, 0));
    BraidFirst(n, word, w);
    crc := braids[0, ByteAt(word, 0) as int];
    for k := 1 to w
      invariant crc == Iter(Ahead(n, w, k), State(0, Bytes(word, w)[..k]))
    {
      var b := ByteAt(word, k);
      BraidTop(braids, n, w, k, b);
      BraidStep(n, word, w, k);
      var e := braids[k, b as int];
      AddRaw(crc, e);
      crc := crc ^ e;
    }
    BraidEnd(n, word, w);
  }

  // ----- blocks ------------------------------------------------------------------------------------------------

  lemma LoadMixed(c: bv32, s: seq<bv8>)
    ensures (c as bv64) ^ Load(s) == Mix(c, Load(s))
  {
    hide Load;
  }

  /** Each braid takes in its word of the block. */
  method Block(braids: array2<bv32>, crcs: seq<bv32>, s: seq<bv8>, n: nat, w: nat) returns (r: seq<bv32>)
    requires BraidTable(braids, n, w) && (w == 4 || w == 8) && |crcs| == n && |s| == n * w
    ensures n > 0 && (n - 1) * w >= 0 && r == Moved(w, (n - 1) * w, crcs, s)
  {
    hide *;
    BraidTop(braids, n, w, 0, 0);
    FirstWord(n, w);
    ghost var gap: nat := (n - 1) * w;
    r := [];
    var at := 0;
    assert crcs[0..] == crcs && s[0..] == s;
    for i := 0 to n
      invariant 0 <= at <= |s| && |s[at..]| == |crcs[i..]| * w && |r| == i
      invariant Moved(w, gap, crcs, s) == r + Moved(w, gap, crcs[i..], s[at..])
    {
      MovedNext(w, gap, crcs, s, i, at);
      var t := s[at..at + w];
      LoadMixed(crcs[i], t);
      Mixed(crcs[i], t);
      var c := Braided(braids, (crcs[i] as bv64) ^ Load(t), n, w);
      MovedOnto(r, c, Moved(w, gap, crcs[i + 1..], s[at + w..]));
      r := r + [c];
      at := at + w;
    }
    NoneMovedOn(w, gap, crcs[n..], s[at..]);
  }

  /** The word of braid i, which starts at place at of the block. */
  lemma MovedNext(w: nat, gap: nat, cs: seq<bv32>, s: seq<bv8>, i: nat, at: nat)
    requires i < |cs| && at <= |s| && |s[at..]| == |cs[i..]| * w
    ensures at + w <= |s| && |s[at + w..]| == |cs[i + 1..]| * w
    ensures Moved(w, gap, cs[i..], s[at..]) ==
            [Iter(8 * gap, State(cs[i], s[at..at + w]))] + Moved(w, gap, cs[i + 1..], s[at + w..])
  {
    hide *;
    MovedIs(w, gap, cs[i..], s[at..]);
    assert s[at..][..w] == s[at..at + w] && s[at..][w..] == s[at + w..] && cs[i..][1..] == cs[i + 1..];
  }

  lemma MovedOnto(r: seq<bv32>, c: bv32, t: seq<bv32>)
    ensures r + ([c] + t) == (r + [c]) + t
  {
  }

  lemma JoinedNext(w: nat, c: bv32, cs: seq<bv32>, s: seq<bv8>, i: nat, at: nat)
    requires i < |cs| && at <= |s| && |s[at..]| == |cs[i..]| * w
    ensures at + w <= |s| && |s[at + w..]| == |cs[i + 1..]| * w
    ensures Joined(w, c, cs[i..], s[at..]) ==
            Joined(w, State(Xor(c, cs[i]), s[at..at + w]), cs[i + 1..], s[at + w..])
  {
    hide *;
    JoinedIs(w, c, cs[i..], s[at..]);
    assert s[at..][..w] == s[at..at + w] && s[at..][w..] == s[at + w..] && cs[i..][1..] == cs[i + 1..];
  }

  lemma NoneMovedOn(w: nat, gap: nat, cs: seq<bv32>, s: seq<bv8>)
    requires cs == [] && |s| == |cs| * w
    ensures Moved(w, gap, cs, s) == []
  {
  }

  lemma NoneJoinedOn(w: nat, c: bv32, cs: seq<bv32>, s: seq<bv8>)
    requires cs == [] && |s| == |cs| * w
    ensures Joined(w, c, cs, s) == c
  {
  }

  lemma LoadMixedTwice(c: bv32, s: seq<bv8>, d: bv32)
    ensures (c as bv64) ^ Load(s) ^ (d as bv64) == Mix(Xor(d, c), Load(s))
  {
    hide *;
    ThreeRaw(c as bv64, Load(s), d as bv64);
    WideSum(d, c, Load(s));
  }

  lemma ThreeRaw(a: bv64, b: bv64, c: bv64)
    ensures a ^ b ^ c == (c ^ a) ^ b
  {
  }

  lemma WideSum(d: bv32, c: bv32, w: bv64)
    ensures Mix(Xor(d, c), w) == ((d as bv64) ^ (c as bv64)) ^ w
  {
    assert (d ^ c) as bv64 == (d as bv64) ^ (c as bv64);
  }

  /** The last block: the registers are joined. */
  method Last(bytes: array<bv32>, crcs: seq<bv32>, s: seq<bv8>, w: nat) returns (crc: bv32)
    requires ByteTable(bytes[..]) && (w == 4 || w == 8) && |s| == |crcs| * w
    ensures crc == Joined(w, 0, crcs, s)
  {
    hide *;
    crc := 0;
    var at := 0;
    assert crcs[0..] == crcs && s[0..] == s;
    for i := 0 to |crcs|
      invariant 0 <= at <= |s| && |s[at..]| == |crcs[i..]| * w
      invariant Joined(w, 0, crcs, s) == Joined(w, crc, crcs[i..], s[at..])
    {
      JoinedNext(w, crc, crcs, s, i, at);
      var t := s[at..at + w];
      LoadMixedTwice(crcs[i], t, crc);
      Mixed(Xor(crc, crcs[i]), t);
      var word := (crcs[i] as bv64) ^ Load(t) ^ (crc as bv64);
      crc := Word(bytes, word, w);
      at := at + w;
    }
    NoneJoinedOn(w, crc, crcs[|crcs|..], s[at..]);
  }

  // ----- the whole --------------------------------------------------------------------------------------------

  /** A pointer to bytes, at an address that decides where words begin. */
  datatype Buffer = Null | Message(s: seq<bv8>, address: nat)

  /** The bytes from at to the next word boundary. */
  function Gap(address: nat, w: nat): nat
    requires w > 0
  {
    (w - address % w) % w
  }

  lemma Boundary(address: nat, w: nat, at: nat)
    requires (w == 4 || w == 8) && at <= Gap(address, w)
    ensures Gap(address, w) < w
    ensures (address + at) % w != 0 ==> at < Gap(address, w)
  {
    if w == 4 {} else {}
  }

  lemma Blocks(n: nat, w: nat, left: nat)
    requires n > 0 && w > 0 && left >= n * w
    ensures n * w > 0 && 1 <= left / (n * w) && left / (n * w) * (n * w) <= left
  {
    FirstWord(n, w);
    var z := n * w;
    assert left == left / z * z + left % z;
  }

  lemma OneBlock(blks: nat, z: nat)
    requires blks > 0
    ensures blks * z == (blks - 1) * z + z && (blks - 1) * z >= 0
  {
  }

  lemma Inverted(a: bv64)
    ensures Cut(!a) == Xor(Cut(a), ALL)
  {
  }

  function Zeros(k: nat): (r: seq<bv32>)
    ensures |r| == k && forall i | 0 <= i < k :: r[i] == 0
  {
    if k == 0 then [] else Zeros(k - 1) + [0]
  }

  /** The braids hold the register of the message up to end, from the blocks between at and end. */
  ghost predicate Braiding(q: bv32, s: seq<bv8>, crcs: seq<bv32>, n: nat, w: nat, at: nat, blks: nat, end: nat) {
    && at <= end <= |s| && n > 0 && |crcs| == n && end == at + blks * (n * w) && n * w <= end - at
    && Whole(w, crcs, s[at..end]) == State(q, s[..end])
  }

  lemma BraidsStart(q: bv32, s: seq<bv8>, crcs: seq<bv32>, n: nat, w: nat, at: nat, blks: nat, end: nat)
    requires blks > 0 && end == at + blks * (n * w) <= |s| && n > 0 && |crcs| == n
    requires crcs[0] == State(q, s[..at]) && forall i | 1 <= i < n :: crcs[i] == 0
    ensures Braiding(q, s, crcs, n, w, at, blks, end)
  {
    hide Whole, State, Xor;
    OneBlock(blks, n * w);
    StartsWhole(w, crcs[0], crcs, s[at..end]);
    StateAppend(q, s[..at], s[at..end]);
    assert s[..at] + s[at..end] == s[..end];
  }

  lemma BraidsNext(q: bv32, s: seq<bv8>, crcs: seq<bv32>, n: nat, w: nat, at: nat, blks: nat, end: nat)
    requires Braiding(q, s, crcs, n, w, at, blks, end) && blks > 1
    ensures n > 0 && |crcs| == n && at + n * w <= |s| && (n - 1) * w >= 0 && |s[at..at + n * w]| == n * w
    ensures Braiding(q, s, Moved(w, (n - 1) * w, crcs, s[at..at + n * w]), n, w, at + n * w, blks - 1, end)
  {
    hide Whole, State, Xor, Moved;
    FirstWord(n, w);
    var z := n * w;
    OneBlock(blks, z);
    OneBlock(blks - 1, z);
    BlockKeeps(w, crcs, s[at..at + z], s[at + z..end]);
    assert s[at..at + z] + s[at + z..end] == s[at..end];
  }

  lemma BraidsEnd(q: bv32, s: seq<bv8>, crcs: seq<bv32>, n: nat, w: nat, at: nat, end: nat)
    requires Braiding(q, s, crcs, n, w, at, 1, end)
    ensures |crcs| == n && end == at + n * w <= |s| && Joined(w, 0, crcs, s[at..end]) == State(q, s[..end])
  {
    hide Whole, State, Xor, Joined;
    LastIsWhole(w, crcs, s[at..end]);
  }

  lemma CrcIs(crc: bv32, s: seq<bv8>, at: nat, r: bv32)
    requires at <= |s| && r == State(State(Xor(crc, ALL), s[..at]), s[at..|s|])
    ensures r ^ ALL == Crc(crc, s)
  {
    hide State, Iter, ALL;
    StateAppend(Xor(crc, ALL), s[..at], s[at..]);
    assert s[at..|s|] == s[at..] && s[..at] + s[at..] == s;
  }

  /** The tables, made once. n braids of words of w bytes. */
  class Tables {
    const n: nat
    const w: nat
    const bytes: array<bv32>
    const powers: array<bv32>
    const braids: array2<bv32>

    ghost predicate Ready()
      reads bytes, powers, braids
    {
      && 1 <= n <= 6 && (w == 4 || w == 8)
      && ByteTable(bytes[..]) && powers[..] == X2N && BraidTable(braids, n, w)
    }

    constructor (n: nat, w: nat)
      requires 1 <= n <= 6 && (w == 4 || w == 8)
      ensures Ready() && this.n == n && this.w == w
      ensures fresh(bytes) && fresh(powers) && fresh(braids)
    {
      this.n, this.w := n, w;
      bytes, powers, braids := new bv32[256], new bv32[32], new bv32[w, 256];
      new;
      hide ByteTable, BraidTable, X2N;
      MakeCrcTable(bytes);
      MakePowers(powers);
      Braid(braids, powers, n, w);
    }

    /** As many whole blocks as there are from place at on, which is on a word boundary, in braids. */
    method Braids(crc: bv32, s: seq<bv8>, at: nat, ghost q: bv32) returns (r: bv32, end: nat)
      requires Ready() && at <= |s| && n * w <= |s| - at && crc == State(q, s[..at])
      ensures at <= end <= |s| && r == State(q, s[..end])
    {
      hide ByteTable, BraidTable, X2N, State, Iter, Xor, Whole, Moved, Joined, Braiding, Gap, Cut, ALL;
      var z := n * w;
      Blocks(n, w, |s| - at);
      var blks: nat, p: nat := (|s| - at) / z, at;
      end := at + blks * z;
      var crcs := [crc] + Zeros(n - 1);
      BraidsStart(q, s, crcs, n, w, p, blks, end);
      while blks > 1
        invariant blks >= 1 && Braiding(q, s, crcs, n, w, p, blks, end)
        decreases blks
      {
        BraidsNext(q, s, crcs, n, w, p, blks, end);
        crcs := Block(braids, crcs, s[p..p + z], n, w);
        p := p + z;
        blks := blks - 1;
      }
      BraidsEnd(q, s, crcs, n, w, p, end);
      r := Last(bytes, crcs, s[p..p + z], w);
    }

    /** The bytes up to a word boundary; fewer than there are in a word. */
    method Align(crc: bv32, s: seq<bv8>, address: nat, ghost q: bv32) returns (r: bv32, at: nat)
      requires Ready() && crc == State(q, [])
      ensures at <= |s| && at < w && r == State(q, s[..at])
      ensures at == |s| || (address + at) % w == 0
    {
      hide ByteTable, BraidTable, X2N, State, Iter, Xor, Gap;
      r, at := crc, 0;
      Boundary(address, w, 0);
      assert s[..0] == [];
      while at < |s| && (address + at) % w != 0
        invariant at <= |s| && at <= Gap(address, w) && r == State(q, s[..at])
      {
        Boundary(address, w, at);
        StateNext(q, s[..at], s[at]);
        assert s[..at + 1] == s[..at] + [s[at]];
        r := TakeByte(bytes, r, s[at]);
        at := at + 1;
      }
    }

    /** The CRC of the buffer, going on from crc; of no buffer, that of no message. */
    method Crc32Z(crc: bv64, buf: Buffer) returns (r: bv32)
      requires Ready()
      ensures r == match buf case Null => 0 case Message(s, _) => Crc(Cut(crc), s)
    {
      hide ByteTable, BraidTable, X2N, State, Iter, Xor, Cut, ALL, Crc;
      if buf.Null? { return 0; }
      var s, at := buf.s, 0;
      ghost var q := Xor(Cut(crc), ALL);
      Inverted(crc);
      r := Cut(!crc);
      StateNext(q, [], 0);
      assert s[..0] == [];
      if |s| >= n * w + w - 1 {
        r, at := Align(r, s, buf.address, q);
        r, at := Braids(r, s, at, q);
      }
      r := Bytewise(bytes, r, s, at, |s|);
      CrcIs(Cut(crc), s, at, r);
      r := r ^ ALL;
    }

    /** What a first CRC is to be multiplied by when a message of len2 bytes follows. */
    method CombineGen64(len2: nat) returns (op: bv32)
      requires Ready()
      ensures op != 0 && forall c: bv32 :: Times(op, c) == Iter(8 * len2, c)
    {
      hide ByteTable, BraidTable, X2N, Iter, Times, Pow2;
      op := X2nModP(powers, len2, 3);
      PowersOfEight(len2);
      forall c: bv32 ensures Times(op, c) == Iter(8 * len2, c) {
        PowerTimes(8 * len2, c);
      }
    }

    method CombineOp(crc1: bv64, crc2: bv64, op: bv32) returns (r: bv32)
      requires op != 0
      ensures r == Xor(Times(op, Cut(crc1)), Cut(crc2))
    {
      hide *;
      var p := MultModP(op, Cut(crc1));
      var c := Cut(crc2);
      AddRaw(p, c);
      r := p ^ c;
    }

    /** From the CRCs of any two parts and the length of the second, however long, the CRC of the whole. */
    method Combine64(crc1: bv64, crc2: bv64, len2: nat) returns (r: bv32)
      requires Ready()
      ensures forall crc, s, t | |t| == len2 && Cut(crc1) == Crc(crc, s) && Cut(crc2) == Crc(0, t) ::
                r == Crc(crc, s + t)
    {
      hide ByteTable, BraidTable, X2N, Iter, Times, Crc, Cut, Xor;
      var op := CombineGen64(len2);
      r := CombineOp(crc1, crc2, op);
      forall crc, s, t | |t| == len2 && Cut(crc1) == Crc(crc, s) && Cut(crc2) == Crc(0, t)
        ensures r == Crc(crc, s + t)
      {
        CrcJoins(crc, s, t);
      }
    }
  }

  lemma PowersOfEight(n: nat)
    ensures n * Pow2(3) == 8 * n
  {
    assert Pow2(1) == 2 && Pow2(2) == 4 && Pow2(3) == 8;
  }
}
