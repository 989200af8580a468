/**
 What holds of deflate's window between steps, as predicates over the contents of its arrays, and one lemma for
 each step (dep/zlib/deflate.c:198-222, 1527-1646).
 */
module DeflateState {
  import opened HashKey
  import opened Powers
  import opened LzWindow

  const WRAP32 := 0x1_0000_0000

  /** A difference in unsigned 32-bit arithmetic, for operands less than one wrap apart. */
  function Less32(a: int, b: int): int {
    if a >= b then a - b else a - b + WRAP32
  }

  ghost predicate Bytes(s: seq<int>) {
    forall i {:trigger s[i]} :: 0 <= i < |s| ==> 0 <= s[i] < 256
  }

  /** The window up to end shows the last bytes of the text, and the chains are sound. */
  ghost predicate Windowed(window: seq<int>, head: seq<int>, prev: seq<int>, owner: seq<int>, front: int,
                           text: seq<int>, base: int, end: int, ps: Params) {
    Shows(window, text, base, end) && Chains(window, head, prev, owner, front, end, ps)
  }

  /** If there is a string at p, the hash is ready for its third byte. */
  ghost predicate HashAt(window: seq<int>, insH: int, p: int, end: int, ps: Params) {
    0 <= p && p + 2 < end <= |window| ==>
      0 <= insH && 0 <= window[p] && 0 <= window[p + 1] && Primed(insH, window[p], window[p + 1], ps.shift, ps.bits)
  }

  /** Strings before s not yet inserted are those that wait for bytes to come. */
  ghost predicate Waiting(insert: int, s: int, lookahead: int, front: int) {
    0 <= insert <= s && front <= s - insert && (insert > 0 ==> lookahead + insert < MIN_MATCH)
  }

  /** The match put off at n - 1: shorter than three if there is none. */
  ghost predicate Pending(available: bool, len: int, dist: int, text: seq<int>, n: int, maxDist: int) {
    2 <= len <= MAX_MATCH && (len >= MIN_MATCH ==> available && 1 <= dist <= maxDist && Repeats(text, n - 1, dist, len))
  }

  lemma WindowedSizes(window: seq<int>, head: seq<int>, prev: seq<int>, owner: seq<int>, front: int,
                      text: seq<int>, base: int, end: int, ps: Params)
    requires Windowed(window, head, prev, owner, front, text, base, end, ps)
    ensures 0 <= end <= |window| == 2 * ps.wsize && 512 <= ps.wsize <= 32768 && 8 <= ps.bits && 3 * ps.shift >= ps.bits
    ensures |prev| == |owner| == ps.wsize && |head| == Pow2(ps.bits) && 0 <= front <= end
      && (front == 0 || front + 2 <= end)
    ensures ByteWindow(window, ps.wsize) && 0 <= base && base + end == |text|
  {
  }

  lemma TextByte(window: seq<int>, head: seq<int>, prev: seq<int>, owner: seq<int>, front: int,
                 text: seq<int>, base: int, end: int, ps: Params, p: int)
    requires Windowed(window, head, prev, owner, front, text, base, end, ps) && 0 <= p < end
    ensures p < |window| && 0 <= base + p < |text| && 0 <= window[p] == text[base + p] < 256
  {
  }

  /** cur is an earlier position on the chain of string p. */
  ghost predicate OnChain(window: seq<int>, owner: seq<int>, front: int, end: int, ps: Params, cur: int, p: int) {
    && 0 < ps.wsize == |owner| && ByteWindow(window, ps.wsize) && front <= end <= |window| && 0 <= p && p + 2 < end
    && 0 < cur < p && Linked(window, owner, front, end, ps, cur, KeyAt(window, p, ps))
  }

  /** Inserting string p, as INSERT_STRING does. */
  lemma Inserted(window: seq<int>, head: seq<int>, prev: seq<int>, owner: seq<int>, front: int,
                 text: seq<int>, base: int, end: int, ps: Params, p: int, insH: int)
    requires Windowed(window, head, prev, owner, front, text, base, end, ps) && front <= p && 0 <= p && p + 2 < end
      && HashAt(window, insH, p, end, ps)
    ensures p + 2 < |window| && 0 <= insH && 0 <= window[p + 2] && 0 <= Slot(p, ps.wsize) < |prev| == |owner|
    ensures ByteWindow(window, ps.wsize) && Update(insH, window[p + 2], ps.shift, ps.bits) == KeyAt(window, p, ps)
    ensures var k, slot := Update(insH, window[p + 2], ps.shift, ps.bits), Slot(p, ps.wsize);
      && k < |head| && HashAt(window, k, p + 1, end, ps)
      && Windowed(window, head[k := p], prev[slot := head[k]], owner[slot := p], p + 1, text, base, end, ps)
      && (head[k] != NIL ==> OnChain(window, owner[slot := p], p + 1, end, ps, head[k], p))
  {
    WindowedSizes(window, head, prev, owner, front, text, base, end, ps);
    TextByte(window, head, prev, owner, front, text, base, end, ps, p + 2);
    TextByte(window, head, prev, owner, front, text, base, end, ps, p + 1);
    PrimedNext(insH, window[p], window[p + 1], window[p + 2], ps.shift, ps.bits);
    var k := Update(insH, window[p + 2], ps.shift, ps.bits);
    assert k == KeyAt(window, p, ps);
    hide Primed, Update;
    ChainsInsert(window, head, prev, owner, front, end, ps, p, k);
    HeadBefore(window, head, prev, owner, front, end, ps, k);
    hide KeyAt, Chains, Linked;
  }

  lemma HeadBefore(window: seq<int>, head: seq<int>, prev: seq<int>, owner: seq<int>, front: int, end: int, ps: Params,
                   k: nat)
    requires Chains(window, head, prev, owner, front, end, ps) && k < |head|
    ensures head[k] != NIL ==> 0 < head[k] < front
  {
  }

  /** Bytes read in behind the end. */
  lemma WindowedMore(window: seq<int>, head: seq<int>, prev: seq<int>, owner: seq<int>, front: int,
                     text: seq<int>, base: int, end: int, ps: Params, window': seq<int>, more: seq<int>)
    requires Windowed(window, head, prev, owner, front, text, base, end, ps) && Bytes(more) && |window'| == |window|
      && end + |more| <= |window|
    requires forall i {:trigger window'[i]} :: 0 <= i < |window| ==>
      window'[i] == if end <= i < end + |more| then more[i - end] else window[i]
    ensures Windowed(window', head, prev, owner, front, text + more, base, end + |more|, ps)
  {
    ShowsMore(window, text, base, end, window', more);
    assert ByteWindow(window', ps.wsize);
    ChainsMore(window, head, prev, owner, front, end, ps, window', end + |more|);
    hide Chains, Shows;
  }

  lemma ShowsMore(window: seq<int>, text: seq<int>, base: int, end: int, window': seq<int>, more: seq<int>)
    requires Shows(window, text, base, end) && Bytes(more) && |window'| == |window| && end + |more| <= |window|
    requires forall i {:trigger window'[i]} :: 0 <= i < |window| ==>
      window'[i] == if end <= i < end + |more| then more[i - end] else window[i]
    ensures Shows(window', text + more, base, end + |more|)
  {
  }

  /** Bytes behind the end do not matter. */
  lemma WindowedBehind(window: seq<int>, head: seq<int>, prev: seq<int>, owner: seq<int>, front: int,
                       text: seq<int>, base: int, end: int, ps: Params, window': seq<int>)
    requires Windowed(window, head, prev, owner, front, text, base, end, ps) && |window'| == |window| && Bytes(window')
    requires forall i {:trigger window'[i]} :: 0 <= i < end ==> window'[i] == window[i]
    ensures Windowed(window', head, prev, owner, front, text, base, end, ps)
  {
    assert ByteWindow(window', ps.wsize);
    ChainsMore(window, head, prev, owner, front, end, ps, window', end);
    hide Chains;
  }

  /** Moving the window down by half. */
  lemma WindowedSlide(window: seq<int>, head: seq<int>, prev: seq<int>, owner: seq<int>, front: int,
                      text: seq<int>, base: int, end: int, ps: Params,
                      window': seq<int>, head': seq<int>, prev': seq<int>, owner': seq<int>)
    requires Windowed(window, head, prev, owner, front, text, base, end, ps) && ps.wsize <= end && |window'| == |window|
      && Bytes(window')
    requires forall i {:trigger window'[i]} :: 0 <= i < end - ps.wsize ==> window'[i] == window[i + ps.wsize]
    requires |head'| == |head| && forall k {:trigger head'[k]} :: 0 <= k < |head| ==>
      head'[k] == Slid(head[k], ps.wsize)
    requires |prev'| == |prev| && forall q {:trigger prev'[q]} :: 0 <= q < |prev| ==>
      prev'[q] == Slid(prev[q], ps.wsize)
    requires |owner'| == |owner| && forall q {:trigger owner'[q]} :: 0 <= q < |owner| ==>
      owner'[q] == SlidOwner(owner[q], ps.wsize)
    ensures Windowed(window', head', prev', owner', if front >= ps.wsize then front - ps.wsize else 0, text,
      base + ps.wsize, end - ps.wsize, ps)
  {
    ShowsSlide(window, text, base, end, ps, window');
    assert ByteWindow(window', ps.wsize);
    ChainsSlide(window, head, prev, owner, front, end, ps, window', head', prev', owner');
    hide Chains, Shows;
  }

  lemma ShowsSlide(window: seq<int>, text: seq<int>, base: int, end: int, ps: Params, window': seq<int>)
    requires Shows(window, text, base, end) && |window'| == |window| && Bytes(window') && 0 <= ps.wsize <= end
    requires forall i {:trigger window'[i]} :: 0 <= i < end - ps.wsize ==> window'[i] == window[i + ps.wsize]
    ensures Shows(window', text, base + ps.wsize, end - ps.wsize)
  {
  }

  lemma HashSlides(window: seq<int>, insH: int, p: int, end: int, ps: Params, window': seq<int>)
    requires HashAt(window, insH, p, end, ps) && |window'| == |window| && 0 <= ps.wsize <= p && end <= |window|
    requires forall i {:trigger window'[i]} :: 0 <= i < end - ps.wsize ==> window'[i] == window[i + ps.wsize]
    ensures HashAt(window', insH, p - ps.wsize, end - ps.wsize, ps)
  {
    hide Primed;
    if p + 2 < end {
      assert window'[p - ps.wsize] == window[p] && window'[p - ps.wsize + 1] == window[p + 1];
    }
  }

  lemma HashStays(window: seq<int>, insH: int, p: int, end: int, ps: Params, window': seq<int>)
    requires HashAt(window, insH, p, end, ps) && |window'| == |window|
    requires forall i {:trigger window'[i]} :: 0 <= i < end && i < |window| ==> window'[i] == window[i]
    ensures HashAt(window', insH, p, end, ps)
  {
    hide Primed;
  }

  /** A distance survives a slide, even when the start of the match has left the window and wrapped. */
  lemma DistanceSlides(s: int, m: int, wsize: int)
    requires 0 < wsize < WRAP32 && wsize < s < WRAP32 && 0 <= m < WRAP32
    ensures 0 <= Less32(m, wsize) < WRAP32 && Less32(s - wsize - 1, Less32(m, wsize)) == Less32(s - 1, m)
  {
  }

  /** A candidate is linked to the next one on its chain. */
  lemma NextLinked(window: seq<int>, head: seq<int>, prev: seq<int>, owner: seq<int>, text: seq<int>, base: int,
                   end: int, ps: Params, s: int, cur: int)
    requires Windowed(window, head, prev, owner, s + 1, text, base, end, ps)
    requires OnChain(window, owner, s + 1, end, ps, cur, s) && s - cur <= MaxDist(ps)
    ensures 0 <= Slot(cur, ps.wsize) < |prev|
    ensures var next := prev[Slot(cur, ps.wsize)]; next != NIL ==>
      next < cur && OnChain(window, owner, s + 1, end, ps, next, s)
  {
    WalkStep(window, head, prev, owner, end, ps, s, cur, KeyAt(window, s, ps));
  }

  lemma SameThree(w: seq<int>, s: int, m: int)
    requires 0 <= m < s && s + 2 < |w| && w[m] == w[s] && w[m + 1] == w[s + 1] && w[m + 2] == w[s + 2]
    ensures SameBytes(w, s, m, 3)
  {
  }

  lemma SameShorter(w: seq<int>, s: int, m: int, len: int, n: int)
    requires SameBytes(w, s, m, len) && 0 <= n <= len
    ensures SameBytes(w, s, m, n)
  {
  }

  /** A byte that differs ends every match past it. */
  lemma DiffersAt(w: seq<int>, s: int, m: int, d: int, n: int)
    requires 0 <= d <= n && 0 <= s + d < |w| && 0 <= m + d < |w| && w[s + d] != w[m + d]
    ensures NoLonger(w, s, m, n)
  {
    assert w[s + d] != w[s + d - (s - m)];
  }

  lemma NoneLonger(w: seq<int>, s: int, m: int, n: int)
    requires MAX_MATCH <= n
    ensures NoLonger(w, s, m, n)
  {
  }

  lemma SearchStarts(w: seq<int>, prev: seq<int>, wsize: int, s: int, first: int, best: int, limit: int)
    requires 0 <= Slot(first, wsize) < |prev| && NoLonger(w, s, first, best)
    ensures Searched(w, prev, wsize, s, first, [first], best, limit)
  {
  }

  /** The next string, with a match that may be longer. */
  lemma SearchGoesOn(w: seq<int>, prev: seq<int>, wsize: int, s: int, first: int, seen: seq<int>, best: int, best': int,
                     limit: int, cur: int)
    requires Searched(w, prev, wsize, s, first, seen, best, limit) && best <= best'
    requires 0 <= Slot(cur, wsize) < |prev| && NoLonger(w, s, cur, best') && limit < cur
    requires cur == prev[Slot(seen[|seen| - 1], wsize)]
    ensures Searched(w, prev, wsize, s, first, seen + [cur], best', limit)
  {
    hide SameBytes, Slot;
  }

  lemma SameOneMore(w: seq<int>, s: int, m: int, len: int)
    requires SameBytes(w, s, m, len) && s + len < |w| && w[s + len] == w[m + len]
    ensures SameBytes(w, s, m, len + 1)
  {
  }

  lemma PendingGrows(available: bool, len: int, dist: int, text: seq<int>, n: int, maxDist: int, text': seq<int>)
    requires Pending(available, len, dist, text, n, maxDist) && text <= text'
    ensures Pending(available, len, dist, text', n, maxDist)
  {
  }

  /** A candidate past the limit is near enough. */
  lemma PastLimit(s: int, cur: int, ps: Params)
    requires Limit(s, ps) < cur
    ensures 0 < cur && cur != NIL && s - cur <= MaxDist(ps)
  {
  }

  /** Starting the hash at p from scratch. */
  lemma HashFresh(window: seq<int>, p: int, end: int, ps: Params)
    requires 8 <= ps.bits && 0 <= p && p + 1 < |window| && 0 <= window[p] < 256 && 0 <= window[p + 1] < 256
    ensures HashAt(window, Update(window[p], window[p + 1], ps.shift, ps.bits), p, end, ps)
  {
    hide Update, Primed;
    PrimedFresh(window[p], window[p + 1], ps.shift, ps.bits);
  }

  /** The window and where deflate stands in it. */
  datatype View = View(window: seq<int>, head: seq<int>, prev: seq<int>, owner: seq<int>, front: int, text: seq<int>,
    base: int,
                       strstart: int, lookahead: int, insert: int, insH: int, matchStart: int)

  /** What every step of filling the window keeps. */
  ghost predicate Stream(v: View, ps: Params) {
    && 0 <= v.strstart && 0 <= v.lookahead && 0 <= v.matchStart < WRAP32
    && Windowed(v.window, v.head, v.prev, v.owner, v.front, v.text, v.base, v.strstart + v.lookahead, ps)
    && HashAt(v.window, v.insH, v.strstart, v.strstart + v.lookahead, ps)
         && Waiting(v.insert, v.strstart, v.lookahead, v.front)
  }

  lemma StreamSizes(v: View, ps: Params)
    requires Stream(v, ps)
    ensures 0 <= v.strstart && 0 <= v.lookahead && v.strstart + v.lookahead <= |v.window| == 2 * ps.wsize
      && 512 <= ps.wsize <= 32768
    ensures 0 <= v.base && v.base + v.strstart + v.lookahead == |v.text| && Bytes(v.window)
      && 0 <= v.matchStart < WRAP32
    ensures 0 <= v.insert <= v.strstart && v.front <= v.strstart - v.insert
      && (v.insert > 0 ==> v.lookahead + v.insert < MIN_MATCH)
  {
    hide Windowed, HashAt;
    WindowedSizes(v.window, v.head, v.prev, v.owner, v.front, v.text, v.base, v.strstart + v.lookahead, ps);
    assert ByteWindow(v.window, ps.wsize);
  }

  lemma StreamParts(v: View, ps: Params)
    requires Stream(v, ps)
    ensures Windowed(v.window, v.head, v.prev, v.owner, v.front, v.text, v.base, v.strstart + v.lookahead, ps)
    ensures HashAt(v.window, v.insH, v.strstart, v.strstart + v.lookahead, ps)
  {
    hide Windowed, HashAt;
  }

  lemma StreamAgain(v: View, ps: Params)
    requires 0 <= v.strstart && 0 <= v.lookahead && 0 <= v.matchStart < WRAP32
    requires Windowed(v.window, v.head, v.prev, v.owner, v.front, v.text, v.base, v.strstart + v.lookahead, ps)
    requires v.lookahead >= MIN_MATCH ==> HashAt(v.window, v.insH, v.strstart, v.strstart + v.lookahead, ps)
    requires 0 <= v.insert <= v.strstart && v.front <= v.strstart - v.insert
      && (v.insert > 0 ==> v.lookahead + v.insert < MIN_MATCH)
    ensures Stream(v, ps)
  {
    hide Windowed;
  }

  /** The first count bytes come from size further up. */
  ghost predicate MovedDown(w: seq<int>, w': seq<int>, count: int, size: int) {
    && |w'| == |w| && Bytes(w') && 0 <= size && 0 <= count <= |w| - size
    && forall i {:trigger w'[i]} :: 0 <= i < count ==> w'[i] == w[i + size]
  }

  ghost predicate AllSlid(a: seq<int>, a': seq<int>, wsize: int) {
    |a'| == |a| && forall k {:trigger a'[k]} :: 0 <= k < |a| ==> a'[k] == Slid(a[k], wsize)
  }

  ghost predicate OwnersSlid(o: seq<int>, o': seq<int>, wsize: int) {
    |o'| == |o| && forall q {:trigger o'[q]} :: 0 <= q < |o| ==> o'[q] == SlidOwner(o[q], wsize)
  }

  lemma StreamSlides(v: View, v': View, ps: Params)
    requires Stream(v, ps) && v.lookahead < MIN_LOOKAHEAD && v.strstart >= ps.wsize + MaxDist(ps) && 512 <= ps.wsize
    requires MovedDown(v.window, v'.window, v.strstart + v.lookahead - ps.wsize, ps.wsize)
    requires AllSlid(v.head, v'.head, ps.wsize) && AllSlid(v.prev, v'.prev, ps.wsize)
      && OwnersSlid(v.owner, v'.owner, ps.wsize)
    requires v'.front == (if v.front >= ps.wsize then v.front - ps.wsize else 0)
    requires v'.text == v.text && v'.base == v.base + ps.wsize && v'.strstart == v.strstart - ps.wsize
      && v'.lookahead == v.lookahead
    requires v'.insert == (if v.insert > v'.strstart then v'.strstart else v.insert) && v'.insH == v.insH
      && v'.matchStart == Less32(v.matchStart, ps.wsize)
    ensures Stream(v', ps) && Less32(v'.strstart - 1, v'.matchStart) == Less32(v.strstart - 1, v.matchStart)
  {
    hide Stream, Windowed, HashAt, Less32, Slid, SlidOwner;
    StreamSizes(v, ps);
    StreamParts(v, ps);
    var end := v.strstart + v.lookahead;
    DistanceSlides(v.strstart, v.matchStart, ps.wsize);
    WindowedSlide(v.window, v.head, v.prev, v.owner, v.front, v.text, v.base, end, ps, v'.window, v'.head, v'.prev,
        v'.owner);
    HashSlides(v.window, v.insH, v.strstart, end, ps, v'.window);
    StreamAgain(v', ps);
  }

  lemma StreamReads(v: View, v': View, ps: Params, more: seq<int>)
    requires Stream(v, ps) && Bytes(more) && v.strstart + v.lookahead + |more| <= |v.window| == |v'.window|
    requires forall i {:trigger v'.window[i]} :: 0 <= i < |v.window| ==>
      v'.window[i] == if v.strstart + v.lookahead <= i < v.strstart + v.lookahead + |more|
        then more[i - (v.strstart + v.lookahead)] else v.window[i]
    requires v' == v.(window := v'.window, text := v.text + more, lookahead := v.lookahead + |more|)
    ensures Windowed(v'.window, v'.head, v'.prev, v'.owner, v'.front, v'.text, v'.base, v'.strstart + v'.lookahead, ps)
    ensures 0 <= v.insert <= v.strstart && v.front <= v.strstart - v.insert
  {
    hide Windowed, HashAt;
    WindowedMore(v.window, v.head, v.prev, v.owner, v.front, v.text, v.base, v.strstart + v.lookahead, ps, v'.window,
        more);
  }

  lemma StreamBehind(v: View, v': View, ps: Params)
    requires Stream(v, ps) && |v'.window| == |v.window| && Bytes(v'.window) && v' == v.(window := v'.window)
    requires forall i {:trigger v'.window[i]} :: 0 <= i < v.strstart + v.lookahead && i < |v.window| ==>
      v'.window[i] == v.window[i]
    ensures Stream(v', ps)
  {
    hide Stream, Windowed, HashAt;
    StreamSizes(v, ps);
    StreamParts(v, ps);
    WindowedBehind(v.window, v.head, v.prev, v.owner, v.front, v.text, v.base, v.strstart + v.lookahead, ps, v'.window);
    HashStays(v.window, v.insH, v.strstart, v.strstart + v.lookahead, ps, v'.window);
    StreamAgain(v', ps);
  }

  /** The string at strstart has been looked up, and inserted if it has three bytes. */
  ghost predicate Looked(v: View, ps: Params) {
    && 0 <= v.strstart && 0 < v.lookahead && 0 <= v.matchStart < WRAP32
    && Windowed(v.window, v.head, v.prev, v.owner, v.front, v.text, v.base, v.strstart + v.lookahead, ps)
    && HashAt(v.window, v.insH, v.strstart + 1, v.strstart + v.lookahead, ps)
    && 0 <= v.insert <= v.strstart && v.front + v.insert <= v.strstart + 1
         && (v.insert > 0 ==> v.lookahead + v.insert < MIN_MATCH)
  }

  lemma NothingToLookUp(v: View, ps: Params)
    requires Stream(v, ps) && 0 < v.lookahead < MIN_MATCH
    ensures Looked(v, ps)
  {
    hide Windowed;
  }

  lemma LookedUp(v: View, v': View, ps: Params)
    requires Stream(v, ps) && v.lookahead >= MIN_MATCH
    requires v' == v.(insH := v'.insH, owner := v'.owner, front := v.strstart + 1, head := v'.head, prev := v'.prev)
    requires Windowed(v'.window, v'.head, v'.prev, v'.owner, v'.front, v'.text, v'.base, v'.strstart + v'.lookahead, ps)
    requires HashAt(v'.window, v'.insH, v'.strstart + 1, v'.strstart + v'.lookahead, ps)
    ensures Looked(v', ps)
  {
    hide Windowed, HashAt;
  }

  lemma LookedSizes(v: View, ps: Params)
    requires Looked(v, ps)
    ensures 0 <= v.strstart && 0 < v.lookahead && v.strstart + v.lookahead <= |v.window| == 2 * ps.wsize
      && 512 <= ps.wsize <= 32768
    ensures 0 <= v.base && v.base + v.strstart + v.lookahead == |v.text| && Bytes(v.window)
      && 0 <= v.matchStart < WRAP32
    ensures 0 <= v.insert <= v.strstart && v.front + v.insert <= v.strstart + 1
      && (v.insert > 0 ==> v.lookahead + v.insert < MIN_MATCH)
    ensures Windowed(v.window, v.head, v.prev, v.owner, v.front, v.text, v.base, v.strstart + v.lookahead, ps)
    ensures HashAt(v.window, v.insH, v.strstart + 1, v.strstart + v.lookahead, ps)
  {
    hide Windowed, HashAt;
    WindowedSizes(v.window, v.head, v.prev, v.owner, v.front, v.text, v.base, v.strstart + v.lookahead, ps);
    assert ByteWindow(v.window, ps.wsize);
  }

  /** Going on to the next string. */
  lemma LookedOn(v: View, v': View, ps: Params)
    requires Looked(v, ps) && v' == v.(strstart := v.strstart + 1, lookahead := v.lookahead - 1)
    ensures Stream(v', ps)
  {
    hide Windowed, HashAt;
  }

  lemma LookedElsewhere(v: View, v': View, ps: Params)
    requires Looked(v, ps) && v' == v.(matchStart := v'.matchStart) && 0 <= v'.matchStart < WRAP32
    ensures Looked(v', ps)
  {
    hide Windowed, HashAt;
  }

  /** Bytes that agree in the window repeat in the text. */
  lemma FoundRepeats(v: View, ps: Params, m: int, len: int)
    requires Looked(v, ps) && SameBytes(v.window, v.strstart, m, len) && len <= v.lookahead
    ensures 1 <= v.strstart - m && Repeats(v.text, v.base + v.strstart, v.strstart - m, len)
  {
    SameRepeats(v.window, v.text, v.base, v.strstart + v.lookahead, v.strstart, m, len);
  }

  /** When the input ends, the last strings too short to be inserted are left waiting. */
  lemma InputEnds(v: View, v': View, ps: Params)
    requires Stream(v, ps) && v.lookahead == 0
    requires v' == v.(insert := if v.strstart < MIN_MATCH - 1 then v.strstart else MIN_MATCH - 1)
    ensures Stream(v', ps)
  {
    hide Windowed, HashAt;
    StreamParts(v, ps);
    WindowedSizes(v.window, v.head, v.prev, v.owner, v.front, v.text, v.base, v.strstart + v.lookahead, ps);
  }

  lemma StreamStarts(v: View, ps: Params)
    requires Sane(ps) && |v.window| == 2 * ps.wsize && Bytes(v.window) && |v.head| == Pow2(ps.bits)
      && |v.prev| == |v.owner| == ps.wsize
    requires forall k {:trigger v.head[k]} :: 0 <= k < |v.head| ==> v.head[k] == NIL
    requires forall q {:trigger v.owner[q]} :: 0 <= q < |v.owner| ==> v.owner[q] == -1
    requires v.front == v.base == v.strstart == v.lookahead == v.insert == v.matchStart == 0 && v.text == []
    ensures Stream(v, ps)
  {
    hide Chains;
    assert ByteWindow(v.window, ps.wsize);
    ChainsStart(v.window, v.head, v.prev, v.owner, ps);
  }
}
