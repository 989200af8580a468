/**
 The run-length stage of bzip2: a run of 4 to 255 equal bytes is stored as four of them and a count
 (dep/bzip2/bzlib.c:216-329 on the way in, 589-680 and 700-804 on the way out).
 */
module RunLength {
  import opened Rotations
  import opened MoveToFront

  datatype Run = Equal(ch: int, len: int)

  predicate Legal(r: Run) {
    0 <= r.ch < 256 && 1 <= r.len <= 255
  }

  /** The bytes stored for a run. */
  function Stored(r: Run): (s: seq<int>)
    requires Legal(r)
    ensures 1 <= |s| <= 5 && Bytes(s) && s[0] == r.ch
  {
    if r.len < 4 then Repeated(r.ch, r.len) else Repeated(r.ch, 4) + [r.len - 4]
  }

  /** Runs as the encoder closes them: a run is followed by one of the same byte only when it is of full length. */
  ghost predicate Tidy(runs: seq<Run>) {
    && (forall i {:trigger runs[i]} :: 0 <= i < |runs| ==> Legal(runs[i]))
    && (forall i {:trigger runs[i]} :: 0 < i < |runs| ==> runs[i - 1].len == 255 || runs[i - 1].ch != runs[i].ch)
  }

  ghost function Storage(runs: seq<Run>): (s: seq<int>)
    requires Tidy(runs)
    ensures Bytes(s) && |s| >= |runs|
  {
    if runs == [] then [] else
      TidyTail(runs);
      Stored(runs[0]) + Storage(runs[1..])
  }

  /** The bytes that went in. */
  ghost function Text(runs: seq<Run>): (s: seq<int>)
    requires Tidy(runs)
  {
    if runs == [] then [] else
      TidyTail(runs);
      Repeated(runs[0].ch, runs[0].len) + Text(runs[1..])
  }

  lemma TidyTail(runs: seq<Run>)
    requires Tidy(runs) && runs != []
    ensures Tidy(runs[1..]) && Legal(runs[0])
  {
    forall i {:trigger runs[1..][i]} | 0 < i < |runs[1..]|
      ensures runs[1..][i - 1].len == 255 || runs[1..][i - 1].ch != runs[1..][i].ch
    {
      assert runs[1..][i] == runs[i + 1];
    }
  }

  /** r may be closed after runs. */
  ghost predicate Follows(runs: seq<Run>, r: Run) {
    Legal(r) && (runs != [] ==> runs[|runs| - 1].len == 255 || runs[|runs| - 1].ch != r.ch)
  }

  lemma {:induction false} Closed(runs: seq<Run>, r: Run)
    requires Tidy(runs) && Follows(runs, r)
    ensures Tidy(runs + [r])
    ensures Storage(runs + [r]) == Storage(runs) + Stored(r)
    ensures Text(runs + [r]) == Text(runs) + Repeated(r.ch, r.len)
  {
    var more := runs + [r];
    assert Tidy(more);
    if runs == [] {
      assert more[1..] == [];
    } else {
      TidyTail(runs);
      assert more[1..] == runs[1..] + [r];
      Closed(runs[1..], r);
    }
  }

  // ----- what the decoder computes ---------------------------------------------------------------------------

  datatype Unpacked = Unpacked(bytes: seq<int>, corrupt: bool)

  /**
   What is written from position pos on, when a block of n bytes is delivered one by one and whatever is
   read past its end comes from data too. Reading runs past the end only when a count is missing.
   */
  function Unpack(data: seq<int>, n: int, pos: int): Unpacked
    requires 0 <= n && n + 2 <= |data| && Bytes(data) && 0 <= pos <= n + 1
    decreases n + 1 - pos
  {
    if pos > n then Unpacked([], true)
    else if pos == n then Unpacked([], false)
    else
      var c := data[pos];
      if pos + 1 == n || data[pos + 1] != c then Before(Repeated(c, 1), Unpack(data, n, pos + 1))
      else if pos + 2 == n || data[pos + 2] != c then Before(Repeated(c, 2), Unpack(data, n, pos + 2))
      else if pos + 3 == n || data[pos + 3] != c then Before(Repeated(c, 3), Unpack(data, n, pos + 3))
      else Before(Repeated(c, data[pos + 4] + 4), Unpack(data, n, pos + 5))
  }

  function Before(s: seq<int>, u: Unpacked): Unpacked {
    Unpacked(s + u.bytes, u.corrupt)
  }

  /** One run stored at pos, and something else or the end behind it, is written as that run. */
  lemma UnpackOne(data: seq<int>, n: int, pos: int, r: Run)
    requires 0 <= n && n + 2 <= |data| && Bytes(data) && Legal(r)
    requires 0 <= pos && pos + |Stored(r)| <= n && data[pos..pos + |Stored(r)|] == Stored(r)
    requires pos + |Stored(r)| < n ==> r.len == 255 || data[pos + |Stored(r)|] != r.ch
    ensures Unpack(data, n, pos) == Before(Repeated(r.ch, r.len), Unpack(data, n, pos + |Stored(r)|))
  {
    var s := Stored(r);
    assert forall i {:trigger s[i]} :: 0 <= i < |s| ==> data[pos + i] == s[i];
    if r.len < 4 {
      assert s[0] == r.ch && (r.len > 1 ==> s[1] == r.ch) && (r.len > 2 ==> s[2] == r.ch);
    } else {
      assert s[0] == r.ch && s[1] == r.ch && s[2] == r.ch && s[3] == r.ch && s[4] == r.len - 4;
    }
  }

  lemma NothingStored(data: seq<int>, n: int, pos: int, runs: seq<Run>)
    requires 0 <= n && n + 2 <= |data| && Bytes(data) && Tidy(runs) && runs == [] && pos + |Storage(runs)| == n
      && 0 <= pos
    ensures Unpack(data, n, pos) == Unpacked(Text(runs), false)
  {
  }

  lemma RunsFront(runs: seq<Run>)
    requires Tidy(runs) && runs != []
    ensures Tidy(runs[1..]) && Legal(runs[0]) && Storage(runs) == Stored(runs[0]) + Storage(runs[1..])
    ensures runs[1..] == [] ==> Storage(runs[1..]) == []
    ensures runs[1..] != [] ==> Storage(runs[1..]) != [] && (runs[0].len == 255 || Storage(runs[1..])[0] != runs[0].ch)
  {
    TidyTail(runs);
    if runs[1..] != [] {
      TidyTail(runs[1..]);
      assert runs[1..][0] == runs[1];
      assert Storage(runs[1..])[0] == runs[1].ch;
    }
  }

  lemma TextFront(runs: seq<Run>, u: Unpacked)
    requires Tidy(runs) && runs != []
    ensures Tidy(runs[1..])
    ensures u == Unpacked(Text(runs[1..]), false) ==>
      Before(Repeated(runs[0].ch, runs[0].len), u) == Unpacked(Text(runs), false)
  {
    TidyTail(runs);
  }

  lemma SliceSplits(data: seq<int>, pos: int, n: int, s: seq<int>, t: seq<int>)
    requires 0 <= pos <= n <= |data| && data[pos..n] == s + t
    ensures pos + |s| <= n && data[pos..pos + |s|] == s && data[pos + |s|..n] == t
    ensures t != [] ==> pos + |s| < n && data[pos + |s|] == t[0]
    ensures t == [] ==> pos + |s| == n
  {
    assert data[pos..n][..|s|] == s && data[pos..n][|s|..] == t;
  }

  /**
   The stage round trip: a block that stores tidy runs is written out as their text and is never found
   corrupt, whatever is delivered after its last byte.
   */
  lemma {:induction false} UnpackInverts(data: seq<int>, n: int, pos: int, runs: seq<Run>)
    requires 0 <= n && n + 2 <= |data| && Bytes(data) && Tidy(runs)
    requires 0 <= pos && pos + |Storage(runs)| == n && data[pos..n] == Storage(runs)
    ensures Unpack(data, n, pos) == Unpacked(Text(runs), false)
    decreases |runs|
  {
    hide *;
    if runs == [] {
      NothingStored(data, n, pos, runs);
    } else {
      RunsFront(runs);
      var r, rest := runs[0], runs[1..];
      var s, t := Stored(r), Storage(rest);
      SliceSplits(data, pos, n, s, t);
      UnpackOne(data, n, pos, r);
      UnpackInverts(data, n, pos + |s|, rest);
      TextFront(runs, Unpack(data, n, pos + |s|));
    }
  }
}
