/**
 What deflate's string matcher keeps, as values: the text behind the window, the symbols tallied and their
 expansion, and the hash chains (dep/zlib/deflate.c, dep/zlib/deflate.h; RFC 1951, section 3.2.3).
 */
module LzWindow {
  import opened HashKey
  import opened Powers

  const MIN_MATCH := 3
  const MAX_MATCH := 258
  const MIN_LOOKAHEAD := 262
  const NIL := 0

  // ----- symbols -----------------------------------------------------------------------------------------------

  datatype Symbol = Literal(c: int) | Match(dist: int, len: int)

  /** len bytes copied from dist back, one by one, so that a copy may run into itself. */
  function Copied(out: seq<int>, dist: int, len: nat): (r: seq<int>)
    requires 0 < dist <= |out|
    ensures |r| == |out| + len
    decreases len
  {
    if len == 0 then out else Copied(out + [out[|out| - dist]], dist, len - 1)
  }

  /** The text that symbols stand for. */
  function Expand(syms: seq<Symbol>): seq<int> {
    if syms == [] then []
    else
      var out := Expand(syms[..|syms| - 1]);
      match syms[|syms| - 1]
      case Literal(c) => out + [c]
      case Match(dist, len) => if 0 < dist <= |out| && len >= 0 then Copied(out, dist, len) else out
  }

  /** Every literal is a byte, and every match reaches back no further than the text and maxDist. */
  ghost predicate Legal(syms: seq<Symbol>, maxDist: int) {
    syms == [] ||
    (Legal(syms[..|syms| - 1], maxDist) &&
     match syms[|syms| - 1]
     case Literal(c) => 0 <= c < 256
     case Match(dist, len) =>
       1 <= dist <= maxDist && dist <= |Expand(syms[..|syms| - 1])| && MIN_MATCH <= len <= MAX_MATCH)
  }

  /** The symbols are legal and stand for the first n bytes of the text. */
  ghost predicate Tallied(syms: seq<Symbol>, text: seq<int>, n: int, maxDist: int) {
    0 <= n <= |text| && Legal(syms, maxDist) && Expand(syms) == text[..n]
  }

  /** The len bytes of the text at n repeat those dist back. */
  ghost predicate Repeats(text: seq<int>, n: int, dist: int, len: int) {
    0 < dist <= n && 0 <= len && n + len <= |text| && forall i {:trigger text[i]} ::
      n <= i < n + len ==> text[i] == text[i - dist]
  }

  lemma RepeatsFits(text: seq<int>, n: int, dist: int, len: int)
    requires Repeats(text, n, dist, len)
    ensures 0 < dist <= n && 0 <= len && n + len <= |text|
  {
  }

  lemma {:induction false} CopyRepeats(text: seq<int>, n: int, dist: int, len: nat)
    requires Repeats(text, n, dist, len)
    ensures Copied(text[..n], dist, len) == text[..n + len]
    decreases len
  {
    if len > 0 {
      OneCopied(text, n, dist, len);
      hide Repeats;
      CopyRepeats(text, n + 1, dist, len - 1);
    }
  }

  lemma OneCopied(text: seq<int>, n: int, dist: int, len: nat)
    requires Repeats(text, n, dist, len) && len > 0
    ensures 0 < dist <= n < |text| && Repeats(text, n + 1, dist, len - 1)
    ensures text[..n] + [text[..n][n - dist]] == text[..n + 1]
  {
    assert text[n] == text[n - dist];
    assert text[..n + 1] == text[..n] + [text[n]];
  }

  lemma TallyLiteral(syms: seq<Symbol>, text: seq<int>, n: int, maxDist: int)
    requires Tallied(syms, text, n, maxDist) && n < |text| && 0 <= text[n] < 256
    ensures Tallied(syms + [Literal(text[n])], text, n + 1, maxDist)
  {
    var more := syms + [Literal(text[n])];
    assert more[..|more| - 1] == syms;
    assert text[..n + 1] == text[..n] + [text[n]];
  }

  lemma NothingTallied(maxDist: int)
    ensures Tallied([], [], 0, maxDist)
  {
  }

  lemma TextLonger(syms: seq<Symbol>, text: seq<int>, n: int, maxDist: int, text': seq<int>)
    requires Tallied(syms, text, n, maxDist) && text <= text'
    ensures Tallied(syms, text', n, maxDist)
  {
    TextGrows(syms, text, n, maxDist, text'[|text|..]);
    assert text' == text + text'[|text|..];
  }

  lemma TalliedLength(syms: seq<Symbol>, text: seq<int>, n: int, maxDist: int)
    requires Tallied(syms, text, n, maxDist)
    ensures |Expand(syms)| == n
  {
  }

  lemma TallyMatch(syms: seq<Symbol>, text: seq<int>, n: int, maxDist: int, dist: int, len: int)
    requires Tallied(syms, text, n, maxDist) && Repeats(text, n, dist, len)
    requires dist <= maxDist && MIN_MATCH <= len <= MAX_MATCH
    ensures Tallied(syms + [Match(dist, len)], text, n + len, maxDist)
  {
    var more := syms + [Match(dist, len)];
    assert more[..|more| - 1] == syms;
    CopyRepeats(text, n, dist, len);
  }

  lemma TextGrows(syms: seq<Symbol>, text: seq<int>, n: int, maxDist: int, more: seq<int>)
    requires Tallied(syms, text, n, maxDist)
    ensures Tallied(syms, text + more, n, maxDist)
  {
    assert (text + more)[..n] == text[..n];
  }

  // ----- the window ----------------------------------------------------------------------------------------------

  datatype Params = Params(wsize: int, shift: nat, bits: nat)

  ghost predicate Sane(p: Params) {
    512 <= p.wsize <= 32768 && 8 <= p.bits <= 16 && 3 * p.shift >= p.bits
  }

  /** Entries below end of the window are the last bytes of the text, entry 0 being byte base. */
  ghost predicate Shows(window: seq<int>, text: seq<int>, base: int, end: int) {
    && 0 <= base && 0 <= end <= |window| && base + end == |text|
    && (forall i {:trigger window[i]} :: 0 <= i < end ==> window[i] == text[base + i])
    && (forall i {:trigger window[i]} :: 0 <= i < |window| ==> 0 <= window[i] < 256)
  }

  /** The key of the three bytes at p. */
  ghost function KeyAt(window: seq<int>, p: int, ps: Params): nat
    requires 0 <= p && p + 2 < |window| && forall i {:trigger window[i]} :: 0 <= i < |window| ==> 0 <= window[i] < 256
  {
    Key(window[p], window[p + 1], window[p + 2], ps.shift, ps.bits)
  }

  // ----- hash chains -----------------------------------------------------------------------------------------------

  /** Where the link of position p is kept: p & w_mask, for positions in a window of twice the size. */
  function Slot(p: int, wsize: int): int {
    if p < wsize then p else p - wsize
  }

  ghost predicate ByteWindow(window: seq<int>, wsize: int) {
    |window| == 2 * wsize && forall i {:trigger window[i]} :: 0 <= i < |window| ==> 0 <= window[i] < 256
  }

  /** p is a position in use with key k, and the last one put in its slot is no earlier. */
  ghost predicate Linked(window: seq<int>, owner: seq<int>, front: int, end: int, ps: Params, p: int, k: nat)
    requires 0 < ps.wsize == |owner| && ByteWindow(window, ps.wsize) && front <= end <= |window|
  {
    0 < p < front && p + 2 < end && KeyAt(window, p, ps) == k && p <= owner[Slot(p, ps.wsize)]
  }

  /**
   The chains. Positions below front may have been inserted; owner[q] is the last one inserted in slot q, or
   -1. A head is nil or a position with that key; a slot's link is nil or an earlier position with its
   owner's key.
   */
  ghost predicate Chains(window: seq<int>, head: seq<int>, prev: seq<int>, owner: seq<int>, front: int, end: int,
                         ps: Params) {
    && Sane(ps) && ByteWindow(window, ps.wsize) && |head| == Pow2(ps.bits) && |prev| == |owner| == ps.wsize
    && 0 <= front <= end <= |window| && (front == 0 || front + 2 <= end)
    && (forall k {:trigger head[k]} :: 0 <= k < |head| && head[k] != NIL ==>
         Linked(window, owner, front, end, ps, head[k], k))
    && (forall q {:trigger owner[q]} :: 0 <= q < ps.wsize && owner[q] != -1 ==>
         0 <= owner[q] < front && owner[q] + 2 < end && Slot(owner[q], ps.wsize) == q)
    && (forall q {:trigger prev[q]} :: 0 <= q < ps.wsize && owner[q] != -1 && prev[q] != NIL ==>
         prev[q] < owner[q] && Linked(window, owner, front, end, ps, prev[q], KeyAt(window, owner[q], ps)))
  }

  lemma ChainsStart(window: seq<int>, head: seq<int>, prev: seq<int>, owner: seq<int>, ps: Params)
    requires Sane(ps) && ByteWindow(window, ps.wsize) && |head| == Pow2(ps.bits) && |prev| == |owner| == ps.wsize
    requires (forall k {:trigger head[k]} :: 0 <= k < |head| ==> head[k] == NIL)
    requires (forall q {:trigger owner[q]} :: 0 <= q < |owner| ==> owner[q] == -1)
    ensures Chains(window, head, prev, owner, 0, 0, ps)
  {
  }

  /** More bytes behind the end leave the chains as they are. */
  lemma ChainsMore(window: seq<int>, head: seq<int>, prev: seq<int>, owner: seq<int>, front: int, end: int, ps: Params,
                   window': seq<int>, end': int)
    requires Chains(window, head, prev, owner, front, end, ps)
    requires ByteWindow(window', ps.wsize) && end <= end' <= |window'|
    requires forall i {:trigger window'[i]} :: 0 <= i < end ==> window'[i] == window[i]
    ensures Chains(window', head, prev, owner, front, end', ps)
  {
  }

  /** Inserting position p under its key. */
  lemma ChainsInsert(window: seq<int>, head: seq<int>, prev: seq<int>, owner: seq<int>, front: int, end: int,
                     ps: Params, p: int, k: nat)
    requires Chains(window, head, prev, owner, front, end, ps) && front <= p && p + 2 < end && k == KeyAt(window, p, ps)
    ensures k < |head| && 0 <= Slot(p, ps.wsize) < ps.wsize
    ensures Chains(window, head[k := p], prev[Slot(p, ps.wsize) := head[k]],
      owner[Slot(p, ps.wsize) := p], p + 1, end, ps)
    ensures head[k] != NIL ==> Linked(window, owner[Slot(p, ps.wsize) := p], p + 1, end, ps, head[k], k)
  {
  }

  /** The furthest back a match may reach. */
  function MaxDist(ps: Params): int {
    ps.wsize - MIN_LOOKAHEAD
  }

  /** Positions at or below this are not looked at from strstart. */
  function Limit(strstart: int, ps: Params): int {
    if strstart > MaxDist(ps) then strstart - MaxDist(ps) else NIL
  }

  /**
   A position no further back than a match may reach still owns its slot, so its link is nil or an earlier position with
   the same key.
   */
  lemma WalkStep(window: seq<int>, head: seq<int>, prev: seq<int>, owner: seq<int>, end: int, ps: Params, strstart: int,
                 cur: int, k: nat)
    requires Chains(window, head, prev, owner, strstart + 1, end, ps)
    requires Linked(window, owner, strstart + 1, end, ps, cur, k) && cur < strstart && strstart - cur <= MaxDist(ps)
    ensures 0 <= Slot(cur, ps.wsize) < ps.wsize
    ensures var next := prev[Slot(cur, ps.wsize)];
      next == NIL || (next < cur && Linked(window, owner, strstart + 1, end, ps, next, k))
  {
    var q := Slot(cur, ps.wsize);
    assert owner[q] == cur;
    assert prev[q] == NIL || Linked(window, owner, strstart + 1, end, ps, prev[q], KeyAt(window, owner[q], ps));
  }

  /** A position after the window has moved down by half. */
  function Slid(m: int, wsize: int): int {
    if m >= wsize then m - wsize else NIL
  }

  function SlidOwner(p: int, wsize: int): int {
    if p >= wsize then p - wsize else -1
  }

  lemma ChainsSlide(window: seq<int>, head: seq<int>, prev: seq<int>, owner: seq<int>, front: int, end: int, ps: Params,
                    window': seq<int>, head': seq<int>, prev': seq<int>, owner': seq<int>)
    requires Chains(window, head, prev, owner, front, end, ps) && ps.wsize <= end
    requires ByteWindow(window', ps.wsize) && forall i {:trigger window'[i]} :: 0 <= i < end - ps.wsize ==>
      window'[i] == window[i + ps.wsize]
    requires |head'| == |head| && forall k {:trigger head'[k]} :: 0 <= k < |head| ==>
      head'[k] == Slid(head[k], ps.wsize)
    requires |prev'| == |prev| && forall q {:trigger prev'[q]} :: 0 <= q < |prev| ==>
      prev'[q] == Slid(prev[q], ps.wsize)
    requires |owner'| == |owner| && forall q {:trigger owner'[q]} :: 0 <= q < |owner| ==>
      owner'[q] == SlidOwner(owner[q], ps.wsize)
    ensures Chains(window', head', prev', owner', if front >= ps.wsize then front - ps.wsize else 0, end - ps.wsize, ps)
  {
    var n := ps.wsize;
    var front' := if front >= n then front - n else 0;
    hide KeyAt;
    forall k {:trigger head'[k]} | 0 <= k < |head| && head'[k] != NIL
      ensures Linked(window', owner', front', end - n, ps, head'[k], k)
    {
      SlideLinked(window, owner, front, end, ps, window', owner', head[k], k);
    }
    forall q {:trigger prev'[q]} | 0 <= q < n && owner'[q] != -1 && prev'[q] != NIL
      ensures prev'[q] < owner'[q]
        && Linked(window', owner', front', end - n, ps, prev'[q], KeyAt(window', owner'[q], ps))
    {
      SlideLink(window, head, prev, owner, front, end, ps, window', owner', q);
    }
    hide Linked;
  }

  lemma SlideLink(window: seq<int>, head: seq<int>, prev: seq<int>, owner: seq<int>, front: int, end: int, ps: Params,
                  window': seq<int>, owner': seq<int>, q: int)
    requires Chains(window, head, prev, owner, front, end, ps) && ps.wsize <= end
    requires ByteWindow(window', ps.wsize) && forall i {:trigger window'[i]} :: 0 <= i < end - ps.wsize ==>
      window'[i] == window[i + ps.wsize]
    requires |owner'| == |owner| && forall r {:trigger owner'[r]} :: 0 <= r < |owner| ==>
      owner'[r] == SlidOwner(owner[r], ps.wsize)
    requires 0 <= q < ps.wsize && owner'[q] != -1 && prev[q] > ps.wsize
    ensures front >= ps.wsize && prev[q] < owner[q] && 0 <= owner'[q] && owner'[q] + 2 < end - ps.wsize
    ensures Linked(window', owner', front - ps.wsize, end - ps.wsize, ps, prev[q] - ps.wsize,
      KeyAt(window', owner'[q], ps))
  {
    hide KeyAt;
    assert owner[q] == owner'[q] + ps.wsize;
    assert Linked(window, owner, front, end, ps, prev[q], KeyAt(window, owner[q], ps));
    SlideKey(window, window', end, ps, owner[q]);
    SlideLinked(window, owner, front, end, ps, window', owner', prev[q], KeyAt(window, owner[q], ps));
  }

  lemma SlideKey(window: seq<int>, window': seq<int>, end: int, ps: Params, p: int)
    requires Sane(ps) && ByteWindow(window, ps.wsize) && ByteWindow(window', ps.wsize) && ps.wsize <= p
      && p + 2 < end <= |window|
    requires forall i {:trigger window'[i]} :: 0 <= i < end - ps.wsize ==> window'[i] == window[i + ps.wsize]
    ensures KeyAt(window', p - ps.wsize, ps) == KeyAt(window, p, ps)
  {
    var q := p - ps.wsize;
    assert window'[q] == window[p] && window'[q + 1] == window[p + 1] && window'[q + 2] == window[p + 2];
  }

  lemma SlideLinked(window: seq<int>, owner: seq<int>, front: int, end: int, ps: Params, window': seq<int>,
                    owner': seq<int>, p: int, k: nat)
    requires Sane(ps) && ByteWindow(window, ps.wsize) && ByteWindow(window', ps.wsize)
      && |owner| == |owner'| == ps.wsize
    requires front <= end <= |window| && ps.wsize < p && Linked(window, owner, front, end, ps, p, k)
    requires forall i {:trigger window'[i]} :: 0 <= i < end - ps.wsize ==> window'[i] == window[i + ps.wsize]
    requires forall q {:trigger owner'[q]} :: 0 <= q < |owner| ==> owner'[q] == SlidOwner(owner[q], ps.wsize)
    ensures Linked(window', owner', front - ps.wsize, end - ps.wsize, ps, p - ps.wsize, k)
  {
    SlideKey(window, window', end, ps, p);
    assert Slot(p - ps.wsize, ps.wsize) == Slot(p, ps.wsize);
  }

  // ----- matches ---------------------------------------------------------------------------------------------------

  /** The len bytes at s equal those at m. */
  ghost predicate SameBytes(window: seq<int>, s: int, m: int, len: int) {
    0 <= m < s && 0 <= len && s + len <= |window| && forall i {:trigger window[i]} ::
      s <= i < s + len ==> window[i] == window[i - (s - m)]
  }

  /** No more than n bytes at m are those at s, up to the longest match there is. */
  ghost predicate NoLonger(window: seq<int>, s: int, m: int, n: int) {
    forall k {:trigger SameBytes(window, s, m, k)} :: n < k <= MAX_MATCH ==> !SameBytes(window, s, m, k)
  }

  /** The strings looked at: they follow the chain from the first, and none of them matches for more than best bytes. */
  ghost predicate Searched(window: seq<int>, prev: seq<int>, wsize: int, s: int, first: int, seen: seq<int>, best: int,
                           limit: int) {
    && |seen| > 0 && seen[0] == first
    && (forall i {:trigger seen[i]} :: 0 <= i < |seen| ==>
         0 <= Slot(seen[i], wsize) < |prev| && NoLonger(window, s, seen[i], best))
    && forall i {:trigger seen[i]} :: 0 < i < |seen| ==> seen[i] == prev[Slot(seen[i - 1], wsize)] && limit < seen[i]
  }

  /** Why a search ends: the match is good enough, all strings allowed were looked at, or the next is too far back. */
  ghost predicate SearchDone(prev: seq<int>, wsize: int, seen: seq<int>, best: int, chain: int, nice: int, limit: int) {
    |seen| > 0 && 0 <= Slot(seen[|seen| - 1], wsize) < |prev|
    && (best >= nice || |seen| == chain || prev[Slot(seen[|seen| - 1], wsize)] <= limit)
  }

  /** Bytes that agree in the window repeat in the text. */
  lemma SameRepeats(window: seq<int>, text: seq<int>, base: int, end: int, s: int, m: int, len: int)
    requires Shows(window, text, base, end) && SameBytes(window, s, m, len) && s + len <= end
    ensures Repeats(text, base + s, s - m, len)
  {
    forall i {:trigger text[i]} | base + s <= i < base + s + len ensures text[i] == text[i - (s - m)] {
      var j := i - base;
      assert window[j] == window[j - (s - m)];
      assert window[j] == text[base + j] && window[j - (s - m)] == text[base + (j - (s - m))];
    }
  }

  /** Linked positions with the key of s that agree with it in two bytes agree in the third. */
  lemma ThirdByte(window: seq<int>, owner: seq<int>, front: int, end: int, ps: Params, s: int, m: int, k: nat)
    requires Sane(ps) && 0 < ps.wsize == |owner| && ByteWindow(window, ps.wsize) && front <= end <= |window|
    requires 0 <= s && s + 2 < end && KeyAt(window, s, ps) == k && Linked(window, owner, front, end, ps, m, k)
    requires window[m] == window[s] && window[m + 1] == window[s + 1]
    ensures window[m + 2] == window[s + 2]
  {
    ThirdByteImplied(window[s], window[s + 1], window[m + 2], window[s + 2], ps.shift, ps.bits);
  }
}
