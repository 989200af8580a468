/**
 Several braids of a message at once: the words of a block go in turn to the registers of the braids, and the registers
 together still hold the register of the whole message (dep/zlib/crc32.c:31-51, 829-905).
 */
module CrcBraids {
  import opened CrcWord
  import opened CrcField
  import opened CrcState

  /** The registers, each times x to the bits still to come from its own word on; d bytes are to come from the first. */
  function Spread(w: nat, cs: seq<bv32>, d: nat): bv32
    requires |cs| * w <= d
    decreases |cs|
  {
    if cs == [] then 0
    else
      FirstWord(|cs|, w);
      Xor(Iter(8 * d, cs[0]), Spread(w, cs[1..], d - w))
  }

  lemma FirstWord(n: nat, w: nat)
    requires n > 0
    ensures n * w == (n - 1) * w + w && (n - 1) * w >= 0
  {
  }

  /** Each register takes in its word of the block and is moved past gap bytes. */
  function Moved(w: nat, gap: nat, cs: seq<bv32>, s: seq<bv8>): (r: seq<bv32>)
    requires |s| == |cs| * w
    ensures |r| == |cs|
    decreases |cs|
  {
    if cs == [] then []
    else
      FirstWord(|cs|, w);
      [Iter(8 * gap, State(cs[0], s[..w]))] + Moved(w, gap, cs[1..], s[w..])
  }

  /** The last block: each word is taken in by its register and what has come of the words before it. */
  function Joined(w: nat, c: bv32, cs: seq<bv32>, s: seq<bv8>): bv32
    requires |s| == |cs| * w
    decreases |cs|
  {
    if cs == [] then c
    else
      FirstWord(|cs|, w);
      Joined(w, State(Xor(c, cs[0]), s[..w]), cs[1..], s[w..])
  }

  /** The register of the whole, from the registers of the braids and what is to come. */
  function Whole(w: nat, cs: seq<bv32>, rest: seq<bv8>): bv32
    requires |cs| * w <= |rest|
  {
    Xor(State(0, rest), Spread(w, cs, |rest|))
  }

  lemma SpreadIs(w: nat, cs: seq<bv32>, d: nat)
    requires cs != [] && |cs| * w <= d
    ensures w <= d && |cs[1..]| * w <= d - w
    ensures Spread(w, cs, d) == Xor(Iter(8 * d, cs[0]), Spread(w, cs[1..], d - w))
  {
    hide Xor, Iter;
    FirstWord(|cs|, w);
  }

  lemma MovedIs(w: nat, gap: nat, cs: seq<bv32>, s: seq<bv8>)
    requires cs != [] && |s| == |cs| * w
    ensures w <= |s| && |s[w..]| == |cs[1..]| * w
    ensures Moved(w, gap, cs, s) == [Iter(8 * gap, State(cs[0], s[..w]))] + Moved(w, gap, cs[1..], s[w..])
  {
    hide Xor, Iter, State;
    FirstWord(|cs|, w);
  }

  lemma JoinedIs(w: nat, c: bv32, cs: seq<bv32>, s: seq<bv8>)
    requires cs != [] && |s| == |cs| * w
    ensures w <= |s| && |s[w..]| == |cs[1..]| * w
    ensures Joined(w, c, cs, s) == Joined(w, State(Xor(c, cs[0]), s[..w]), cs[1..], s[w..])
  {
    hide Xor, Iter, State;
    FirstWord(|cs|, w);
  }

  // ----- a block --------------------------------------------------------------------------------------------------

  lemma StateSplits(c: bv32, s: seq<bv8>)
    ensures State(c, s) == Xor(State(0, s), Iter(8 * |s|, c))
  {
    hide *;
    Zero(c);
    StateAdds(0, c, s);
  }

  lemma IterTwice(m: nat, n: nat, k: nat, c: bv32)
    requires k == m + n
    ensures Iter(8 * m, Iter(8 * n, c)) == Iter(8 * k, c)
  {
    hide *;
    IterSum(8 * m, 8 * n, c);
  }

  lemma MovedSum(m: nat, n: nat, k: nat, a: bv32, c: bv32)
    requires k == m + n
    ensures Iter(8 * m, Xor(a, Iter(8 * n, c))) == Xor(Iter(8 * m, a), Iter(8 * k, c))
  {
    hide *;
    IterAdds(8 * m, a, Iter(8 * n, c));
    IterTwice(m, n, k, c);
  }

  /** A word that its register has taken in and moved past gap bytes, with d more to come after those. */
  lemma OneMoved(c: bv32, s: seq<bv8>, gap: nat, d: nat, m: nat, n: nat)
    requires m == d + gap && n == m + |s|
    ensures Iter(8 * d, Iter(8 * gap, State(c, s))) == Xor(Iter(8 * m, State(0, s)), Iter(8 * n, c))
  {
    hide *;
    IterTwice(d, gap, m, State(c, s));
    StateSplits(c, s);
    MovedSum(m, |s|, n, State(0, s), c);
  }

  /** The message so far after s, with e bytes to come. */
  lemma JoinsBefore(s: seq<bv8>, t: seq<bv8>, e: nat, m: nat)
    requires m == e + |t|
    ensures Iter(8 * e, State(0, s + t)) == Xor(Iter(8 * m, State(0, s)), Iter(8 * e, State(0, t)))
  {
    hide *;
    StateJoins(0, s, t);
    IterAdds(8 * e, Iter(8 * |t|, State(0, s)), State(0, t));
    IterTwice(e, |t|, m, State(0, s));
  }

  /** Moving the registers keeps their sum, with the message of the block now in them; e bytes are to come after it. */
  lemma {:induction false} SpreadMoved(w: nat, gap: nat, cs: seq<bv32>, s: seq<bv8>, d: nat, e: nat)
    requires |s| == |cs| * w && d + gap + w == e + |s| && |cs| * w <= d
    ensures Spread(w, Moved(w, gap, cs, s), d) == Xor(Iter(8 * e, State(0, s)), Spread(w, cs, e + |s|))
    decreases |cs|
  {
    hide Xor, Iter, State, Spread, Moved;
    if cs == [] {
      NoneMoved(w, gap, cs, s, d, e);
    } else {
      var u, t := s[..w], s[w..];
      assert s == u + t by { MovedIs(w, gap, cs, s); }
      MovedIs(w, gap, cs, s);
      var ms := Moved(w, gap, cs, s);
      assert ms[1..] == Moved(w, gap, cs[1..], t);
      SpreadIs(w, ms, d);
      SpreadIs(w, cs, e + |s|);
      OneMoved(cs[0], u, gap, d, e + |t|, e + |s|);
      JoinsBefore(u, t, e, e + |t|);
      SpreadMoved(w, gap, cs[1..], t, d - w, e);
      Pairs(Iter(8 * (e + |t|), State(0, u)), Iter(8 * (e + |s|), cs[0]),
            Iter(8 * e, State(0, t)), Spread(w, cs[1..], e + |s| - w));
    }
  }

  lemma NoneMoved(w: nat, gap: nat, cs: seq<bv32>, s: seq<bv8>, d: nat, e: nat)
    requires cs == [] && s == []
    ensures Spread(w, Moved(w, gap, cs, s), d) == Xor(Iter(8 * e, State(0, s)), Spread(w, cs, e))
  {
    IterZero(8 * e);
    hide Xor, Iter;
    Zero(0);
  }

  /** The main loop: the registers take in a block and are moved past the words of the other braids. */
  lemma BlockKeeps(w: nat, cs: seq<bv32>, s: seq<bv8>, rest: seq<bv8>)
    requires cs != [] && |s| == |cs| * w && |cs| * w <= |rest|
    ensures (|cs| - 1) * w >= 0 && |cs| * w <= |s + rest|
    ensures Whole(w, Moved(w, (|cs| - 1) * w, cs, s), rest) == Whole(w, cs, s + rest)
  {
    FirstWord(|cs|, w);
    hide Xor, Iter, State, Spread, Moved;
    SpreadMoved(w, (|cs| - 1) * w, cs, s, |rest|, |rest|);
    StateJoins(0, s, rest);
    var a, b, c := Iter(8 * |rest|, State(0, s)), State(0, rest), Spread(w, cs, |rest| + |s|);
    Assoc(b, a, c);
    Comm(a, b);
  }

  /** The last block joins the registers into that of the whole. */
  lemma {:induction false} LastJoins(w: nat, c: bv32, cs: seq<bv32>, s: seq<bv8>)
    requires |s| == |cs| * w
    ensures Joined(w, c, cs, s) == Xor(State(c, s), Spread(w, cs, |s|))
    decreases |cs|
  {
    hide Xor, Iter, State, Spread, Joined;
    if cs == [] {
      NoneJoined(w, c, cs, s);
    } else {
      var u, t := s[..w], s[w..];
      JoinedIs(w, c, cs, s);
      assert s == u + t;
      SpreadIs(w, cs, |s|);
      LastJoins(w, State(Xor(c, cs[0]), u), cs[1..], t);
      StateAppend(Xor(c, cs[0]), u, t);
      StateAdds(c, cs[0], s);
      Assoc(State(c, s), Iter(8 * |s|, cs[0]), Spread(w, cs[1..], |t|));
    }
  }

  lemma NoneJoined(w: nat, c: bv32, cs: seq<bv32>, s: seq<bv8>)
    requires cs == [] && s == []
    ensures Joined(w, c, cs, s) == Xor(State(c, s), Spread(w, cs, |s|))
  {
    hide Xor, Iter;
    Zero(c);
  }

  lemma LastIsWhole(w: nat, cs: seq<bv32>, s: seq<bv8>)
    requires |s| == |cs| * w
    ensures Joined(w, 0, cs, s) == Whole(w, cs, s)
  {
    hide Xor, Iter, State, Spread, Joined;
    LastJoins(w, 0, cs, s);
  }

  // ----- the start ------------------------------------------------------------------------------------------------

  lemma {:induction false} SpreadZeros(w: nat, cs: seq<bv32>, d: nat)
    requires |cs| * w <= d && forall i | 0 <= i < |cs| :: cs[i] == 0
    ensures Spread(w, cs, d) == 0
    decreases |cs|
  {
    hide Xor, Iter;
    if cs != [] {
      SpreadIs(w, cs, d);
      SpreadZeros(w, cs[1..], d - w);
      IterZero(8 * d);
      Zero(0);
    }
  }

  /** The first braid starts from the register, the others from nothing. */
  lemma StartsWhole(w: nat, c: bv32, cs: seq<bv32>, s: seq<bv8>)
    requires cs != [] && cs[0] == c && (forall i | 1 <= i < |cs| :: cs[i] == 0) && |cs| * w <= |s|
    ensures Whole(w, cs, s) == State(c, s)
  {
    hide Xor, Iter, State, Spread;
    SpreadIs(w, cs, |s|);
    SpreadZeros(w, cs[1..], |s| - w);
    Zero(Iter(8 * |s|, c));
    Zero(c);
    StateAdds(0, c, s);
  }
}
