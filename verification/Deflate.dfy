/**
 The LZ77 half of deflate: the sliding window, the hash chains, the match search, and the greedy and the lazy
 compressor (dep/zlib/deflate.c:158-222, 1223-1422, 1527-1672, 1877-2102). Output is seen as the blocks of
 symbols flushed, and through calls that may stop because the output is full.
 */
module Deflate {
  import opened HashKey
  import opened Powers
  import opened LzWindow
  import opened DeflateChoices
  import opened DeflateState
  import opened SymbolBuffer

  datatype Status = NeedMore | BlockDone | FinishStarted | FinishDone

  /** Z_NO_FLUSH, Z_FINISH, and what lies between. */
  datatype Flush = NoFlush | SomeFlush | Finish

  class Deflater {
    const ps: Params
    const config: Config
    const window: array<int>
    const prev: array<int>
    const head: array<int>
    const symBuf: array<int>
    const symEnd: int
    var strstart: int
    var lookahead: int
    var insert: int
    var insH: int
    var matchStart: int
    var matchLength: int
    var prevMatch: int
    var prevLength: int
    var matchAvailable: bool
    var highWater: int
    var blockStart: int
    var symNext: int
    var nextIn: seq<int>
    var sent: seq<Symbol>
    ghost var text: seq<int>
    ghost var base: int
    ghost var owner: seq<int>
    ghost var front: int
    ghost var block: seq<Symbol>
    ghost var turns: seq<Turn>
    ghost var blocks: seq<seq<Symbol>>

    /** The arrays are apart, and the chain search is allowed at least four steps. */
    ghost predicate Arrays() {
      && window != prev && window != head && prev != head && symBuf != window && symBuf != prev && symBuf != head
      && Sane(ps) && window.Length == 2 * ps.wsize && prev.Length == ps.wsize && head.Length == Pow2(ps.bits)
      && config.maxChain >= 4
    }

    ghost predicate InWindow(end: int)
      reads this`text, this`base, this`owner, this`front, window, head, prev
    {
      Windowed(window[..], head[..], prev[..], owner, front, text, base, end, ps)
    }

    lemma Sizes(end: int)
      requires Arrays() && InWindow(end)
      ensures 0 <= end <= window.Length == 2 * ps.wsize && 512 <= ps.wsize <= 32768 && 8 <= ps.bits
        && 3 * ps.shift >= ps.bits
      ensures prev.Length == |owner| == ps.wsize && head.Length == Pow2(ps.bits) && 0 <= front <= end
        && (front == 0 || front + 2 <= end)
      ensures ByteWindow(window[..], ps.wsize) && 0 <= base && base + end == |text|
    {
      WindowedSizes(window[..], head[..], prev[..], owner, front, text, base, end, ps);
    }

    /** cur is an earlier position on the chain of string p. */
    ghost predicate Candidate(cur: int, end: int, p: int)
      reads this`owner, this`front, window
    {
      OnChain(window[..], owner, front, end, ps, cur, p)
    }

    /** Inserts string p at the head of its chain and gives the previous head. */
    method InsertString(p: int, ghost end: int) returns (hashHead: int)
      requires Arrays() && InWindow(end) && front <= p && 0 <= p && p + 2 < end && HashAt(window[..], insH, p, end, ps)
      modifies this`insH, this`owner, this`front, prev, head
      ensures InWindow(end) && front == p + 1 && HashAt(window[..], insH, p + 1, end, ps)
      ensures hashHead != NIL ==> Candidate(hashHead, end, p)
      ensures p + 2 < window.Length && ByteWindow(window[..], ps.wsize) && 0 <= Slot(p, ps.wsize) < prev.Length
        && KeyAt(window[..], p, ps) < head.Length && hashHead == old(head[KeyAt(window[..], p, ps)])
      ensures head[..] == old(head[..])[KeyAt(window[..], p, ps) := p]
        && prev[..] == old(prev[..])[Slot(p, ps.wsize) := hashHead]
    {
      hide Windowed, OnChain, HashAt, Update, Slot, Pow2, KeyAt, ByteWindow;
      ghost var w, h, q := window[..], head[..], prev[..];
      Inserted(w, h, q, owner, front, text, base, end, ps, p, insH);
      insH := Update(insH, window[p + 2], ps.shift, ps.bits);
      hashHead := head[insH];
      var slot := Slot(p, ps.wsize);
      prev[slot] := hashHead;
      head[insH] := p;
      owner := owner[slot := p];
      front := p + 1;
      assert head[..] == h[insH := p] && prev[..] == q[slot := h[insH]] && window[..] == w;
    }

    /**
     The comparison loop: eight bytes to a round, the end tested once a round. The strings at s and m are
     known to agree in three bytes.
     */
    method MatchLength(s: int, m: int) returns (len: int)
      requires 0 <= m < s && s + MAX_MATCH < window.Length && SameBytes(window[..], s, m, 3)
      ensures 3 <= len <= MAX_MATCH && SameBytes(window[..], s, m, len)
      ensures len < MAX_MATCH ==> window[s + len] != window[m + len]
    {
      hide SameBytes;
      var scan, match_ := s + 2, m + 2;
      var strend := s + MAX_MATCH;
      var mismatch := false;
      ghost var rounds := 0;
      while true
        invariant 0 <= rounds < 32 && scan == s + 2 + 8 * rounds && match_ == m + (scan - s) && !mismatch
        invariant SameBytes(window[..], s, m, scan - s + 1)
        decreases 32 - rounds
      {
        for k := 0 to 8
          invariant scan == s + 2 + 8 * rounds + k && match_ == m + (scan - s) && !mismatch
          invariant SameBytes(window[..], s, m, scan - s + 1)
        {
          scan, match_ := scan + 1, match_ + 1;
          if window[scan] != window[match_] { mismatch := true; break; }
          SameOneMore(window[..], s, m, scan - s);
        }
        if mismatch || scan >= strend { break; }
        rounds := rounds + 1;
      }
      len := MAX_MATCH - (strend - scan);
      if !mismatch { SameShorter(window[..], s, m, len + 1, len); }
    }

    /** What the comparisons of a candidate leave out follows from its key. */
    lemma ThreeAgree(cur: int, end: int, p: int)
      requires Arrays() && Candidate(cur, end, p) && window[cur] == window[p] && window[cur + 1] == window[p + 1]
      ensures 0 <= cur < p < window.Length && SameBytes(window[..], p, cur, 3)
    {
      ThirdByte(window[..], owner, front, end, ps, p, cur, KeyAt(window[..], p, ps));
      SameThree(window[..], p, cur);
    }

    /**
     The length of the match with candidate cur, 0 if it is passed over. Only the last two bytes of the best
     match so far and the first two bytes are compared before it is taken up.
     */
    method Compare(s: int, cur: int, bestLen: int, scanEnd1: int, scanEnd: int, ghost end: int) returns (len: int)
      requires Arrays() && Candidate(cur, end, s) && 1 <= bestLen <= MAX_MATCH && s + MAX_MATCH < window.Length
      requires scanEnd1 == window[s + bestLen - 1] && scanEnd == window[s + bestLen]
      ensures NoLonger(window[..], s, cur, if len > bestLen then len else bestLen)
      ensures len <= MAX_MATCH && (len > bestLen ==> 0 <= cur < s && SameBytes(window[..], s, cur, len))
      ensures 3 <= len < MAX_MATCH ==> 0 <= cur < s && window[s + len] != window[cur + len]
    {
      hide Windowed, Linked, KeyAt, SameBytes;
      len := 0;
      if window[cur + bestLen] == scanEnd && window[cur + bestLen - 1] == scanEnd1
        && window[cur] == window[s] && window[cur + 1] == window[s + 1]
      {
        ThreeAgree(cur, end, s);
        len := MatchLength(s, cur);
        if len < MAX_MATCH { DiffersAt(window[..], s, cur, len, if len > bestLen then len else bestLen); }
        if len == MAX_MATCH { NoneLonger(window[..], s, cur, len); }
      } else if window[cur + bestLen] != scanEnd {
        DiffersAt(window[..], s, cur, bestLen, bestLen);
      } else if window[cur + bestLen - 1] != scanEnd1 {
        DiffersAt(window[..], s, cur, bestLen - 1, bestLen);
      } else if window[cur] != window[s] {
        DiffersAt(window[..], s, cur, 0, bestLen);
      } else {
        DiffersAt(window[..], s, cur, 1, bestLen);
      }
    }

    method NextOnChain(cur: int, ghost end: int) returns (next: int)
      requires Arrays() && InWindow(end) && front == strstart + 1 && Candidate(cur, end, strstart)
        && strstart - cur <= MaxDist(ps)
      ensures next != NIL ==> next < cur && Candidate(next, end, strstart)
      ensures 0 <= Slot(cur, ps.wsize) < prev.Length && next == prev[Slot(cur, ps.wsize)]
    {
      hide Windowed, OnChain;
      NextLinked(window[..], head[..], prev[..], owner, text, base, end, ps, strstart, cur);
      next := prev[Slot(cur, ps.wsize)];
    }

    lemma CandidateBefore(cur: int, end: int, p: int)
      requires Arrays() && Candidate(cur, end, p)
      ensures 0 < cur < p && p + 2 < end <= window.Length
    {
    }

    /** A match of n bytes, if longer than prevLength, repeats the string at strstart from near enough. */
    ghost predicate Found(n: int)
      reads this`strstart, this`prevLength, this`matchStart, window
    {
      0 <= matchStart < WRAP32
        && (n > prevLength ==> SameBytes(window[..], strstart, matchStart, n) && strstart - matchStart <= MaxDist(ps))
    }

    lemma FoundNothing()
      requires 0 <= matchStart < WRAP32
      ensures Found(prevLength)
    {
    }

    lemma FoundHere(n: int)
      requires 0 <= matchStart < WRAP32 && SameBytes(window[..], strstart, matchStart, n)
        && strstart - matchStart <= MaxDist(ps)
      ensures Found(n)
    {
    }

    lemma FoundShorter(n: int, n': int)
      requires Found(n) && 0 <= n' <= n
      ensures Found(n')
    {
      if n' > prevLength { SameShorter(window[..], strstart, matchStart, n, n'); }
    }

    /**
     The search down the hash chain. A match longer than prevLength, if one comes back, is of true repeats at
     matchStart, whatever lies behind the lookahead.
     */
    method LongestMatch(curMatch: int) returns (n: int, ghost best: int, ghost seen: seq<int>)
      requires Arrays() && InWindow(strstart + lookahead)
      requires front == strstart + 1 && strstart + MAX_MATCH < window.Length < WRAP32 && MIN_MATCH <= lookahead
        && 1 <= prevLength <= MAX_MATCH
      requires Candidate(curMatch, strstart + lookahead, strstart) && strstart - curMatch <= MaxDist(ps)
        && 0 <= matchStart < WRAP32
      modifies this`matchStart
      ensures n <= lookahead && n <= MAX_MATCH && (n >= prevLength || n == lookahead)
      ensures Found(n) && Found(best) && n == if best <= lookahead then best else lookahead
      ensures prevLength <= best <= MAX_MATCH && |seen| <= Chain(config, prevLength)
      ensures Searched(window[..], prev[..], ps.wsize, strstart, curMatch, seen, best, Limit(strstart, ps))
      ensures SearchDone(prev[..], ps.wsize, seen, best, Chain(config, prevLength), Nice(config, lookahead),
        Limit(strstart, ps))
    {
      hide *;
      SearchSettings();
      CandidateBefore(curMatch, strstart + lookahead, strstart);
      var chainLength := config.maxChain;
      if prevLength >= config.goodMatch { chainLength := chainLength / 4; }
      var niceMatch := if config.niceMatch > lookahead then lookahead else config.niceMatch;
      var bestLen;
      bestLen, seen := SearchChain(curMatch, chainLength, niceMatch, Limit(strstart, ps));
      best := bestLen;
      n := if bestLen <= lookahead then bestLen else lookahead;
      FoundShorter(bestLen, n);
    }

    /** The loop along the chain. */
    method SearchChain(curMatch: int, chainLength0: int, niceMatch: int, limit: int)
      returns (bestLen: int, ghost seen: seq<int>)
      requires Arrays() && InWindow(strstart + lookahead)
      requires front == strstart + 1 && strstart + MAX_MATCH < window.Length < WRAP32 && 1 <= prevLength <= MAX_MATCH
      requires Candidate(curMatch, strstart + lookahead, strstart) && strstart - curMatch <= MaxDist(ps)
        && 0 <= matchStart < WRAP32 && 0 < chainLength0 && limit == Limit(strstart, ps)
      modifies this`matchStart
      ensures prevLength <= bestLen <= MAX_MATCH && Found(bestLen) && |seen| <= chainLength0
      ensures Searched(window[..], prev[..], ps.wsize, strstart, curMatch, seen, bestLen, limit)
      ensures SearchDone(prev[..], ps.wsize, seen, bestLen, chainLength0, niceMatch, limit)
    {
      hide *;
      ghost var end := strstart + lookahead;
      FoundNothing();
      CandidateBefore(curMatch, end, strstart);
      var cur, chainLength := curMatch, chainLength0;
      bestLen := prevLength;
      var scanEnd1, scanEnd := window[strstart + bestLen - 1], window[strstart + bestLen];
      seen := [];
      NothingSearched(curMatch, bestLen, limit);
      while true
        invariant strstart - cur <= MaxDist(ps) && Candidate(cur, end, strstart)
        invariant prevLength <= bestLen <= MAX_MATCH && Found(bestLen)
        invariant scanEnd1 == window[strstart + bestLen - 1] && scanEnd == window[strstart + bestLen]
        invariant 0 < chainLength == chainLength0 - |seen|
        invariant Searching(curMatch, seen, bestLen, limit, cur)
        decreases cur
      {
        CandidateBefore(cur, end, strstart);
        var len := Compare(strstart, cur, bestLen, scanEnd1, scanEnd, end);
        OneSearched(curMatch, seen, bestLen, if len > bestLen then len else bestLen, limit, cur);
        seen := seen + [cur];
        assert seen[|seen| - 1] == cur;
        if len > bestLen {
          matchStart := cur;
          bestLen := len;
          FoundHere(len);
          if len >= niceMatch {
            SearchEnds(seen, bestLen, chainLength0, niceMatch, limit);
            break;
          }
          scanEnd1, scanEnd := window[strstart + bestLen - 1], window[strstart + bestLen];
        }
        cur := NextOnChain(cur, end);
        if cur <= limit {
          SearchEnds(seen, bestLen, chainLength0, niceMatch, limit);
          break;
        }
        PastLimit(strstart, cur, ps);
        chainLength := chainLength - 1;
        if chainLength == 0 {
          SearchEnds(seen, bestLen, chainLength0, niceMatch, limit);
          break;
        }
        StillSearching(curMatch, seen, bestLen, limit, cur);
      }
    }

    lemma SearchSettings()
      requires Arrays()
      ensures Chain(config, prevLength)
        == (if prevLength >= config.goodMatch then config.maxChain / 4 else config.maxChain) > 0
      ensures Nice(config, lookahead) == if config.niceMatch > lookahead then lookahead else config.niceMatch
    {
    }

    /** The strings looked at, none of which matches for more than best bytes, and the one to look at next. */
    ghost predicate Searching(first: int, seen: seq<int>, best: int, limit: int, cur: int)
      reads this`strstart, window, prev
    {
      && (seen == [] ==> cur == first)
      && (seen != [] ==>
           && Searched(window[..], prev[..], ps.wsize, strstart, first, seen, best, limit)
           && 0 <= Slot(seen[|seen| - 1], ps.wsize) < prev.Length && cur == prev[Slot(seen[|seen| - 1], ps.wsize)]
           && limit < cur)
    }

    lemma NothingSearched(first: int, best: int, limit: int)
      ensures Searching(first, [], best, limit, first)
    {
    }

    lemma StillSearching(first: int, seen: seq<int>, best: int, limit: int, cur: int)
      requires seen != [] && Searched(window[..], prev[..], ps.wsize, strstart, first, seen, best, limit) && limit < cur
      requires 0 <= Slot(seen[|seen| - 1], ps.wsize) < prev.Length && cur == prev[Slot(seen[|seen| - 1], ps.wsize)]
      ensures Searching(first, seen, best, limit, cur)
    {
      hide Searched, Slot;
    }

    lemma OneSearched(first: int, seen: seq<int>, best: int, best': int, limit: int, cur: int)
      requires Arrays() && 0 < cur < strstart < window.Length && best <= best'
        && NoLonger(window[..], strstart, cur, best')
      requires Searching(first, seen, best, limit, cur)
      ensures 0 <= Slot(cur, ps.wsize) < prev.Length
      ensures Searched(window[..], prev[..], ps.wsize, strstart, first, seen + [cur], best', limit)
    {
      assert 0 <= Slot(cur, ps.wsize) < prev.Length;
      hide Searched, NoLonger, Slot;
      if seen == [] {
        SearchStarts(window[..], prev[..], ps.wsize, strstart, cur, best', limit);
        assert [] + [cur] == [cur];
      } else {
        SearchGoesOn(window[..], prev[..], ps.wsize, strstart, first, seen, best, best', limit, cur);
      }
    }

    lemma SearchEnds(seen: seq<int>, best: int, chain: int, nice: int, limit: int)
      requires |seen| > 0 && 0 <= Slot(seen[|seen| - 1], ps.wsize) < prev.Length
      requires best >= nice || |seen| == chain || prev[Slot(seen[|seen| - 1], ps.wsize)] <= limit
      ensures SearchDone(prev[..], ps.wsize, seen, best, chain, nice, limit)
    {
      hide Slot;
    }

    // ----- filling the window ------------------------------------------------------------------------------------

    /** slide_hash: every position goes down by half the window, those in the lower half become nil. */
    method SlideHash()
      requires head != prev
      modifies this`owner, head, prev
      ensures AllSlid(old(head[..]), head[..], ps.wsize) && AllSlid(old(prev[..]), prev[..], ps.wsize)
      ensures OwnersSlid(old(owner), owner, ps.wsize)
    {
      hide Slid, SlidOwner;
      SlideAll(head);
      SlideAll(prev);
      ghost var o := owner;
      owner := seq(|o|, i requires 0 <= i < |o| => SlidOwner(o[i], ps.wsize));
    }

    method SlideAll(a: array<int>)
      modifies a
      ensures AllSlid(old(a[..]), a[..], ps.wsize)
    {
      var n := a.Length;
      while n > 0
        invariant 0 <= n <= a.Length
        invariant forall k {:trigger a[k]} :: n <= k < a.Length ==> a[k] == Slid(old(a[k]), ps.wsize)
        invariant forall k {:trigger a[k]} :: 0 <= k < n ==> a[k] == old(a[k])
      {
        n := n - 1;
        var m := a[n];
        a[n] := if m >= ps.wsize then m - ps.wsize else NIL;
      }
    }

    /** Copies count bytes from the middle of the window to its start. */
    method CopyDown(count: int)
      requires 0 <= count <= ps.wsize && window.Length == 2 * ps.wsize && Bytes(window[..])
      modifies window
      ensures MovedDown(old(window[..]), window[..], count, ps.wsize)
    {
      for k := 0 to count
        invariant forall i {:trigger window[i]} :: 0 <= i < window.Length ==>
          window[i] == if i < k then old(window[i + ps.wsize]) else old(window[i])
      {
        window[k] := window[k + ps.wsize];
      }
    }

    ghost function State(): View
      reads this`text, this`base, this`owner, this`front, this`strstart, this`lookahead, this`insH, this`insert,
            this`matchStart, window, head, prev
    {
      View(window[..], head[..], prev[..], owner, front, text, base, strstart, lookahead, insert, insH, matchStart)
    }

    /** Where the window stands in the text, where the block began, and how far back a match put off starts. */
    ghost function Place(): (int, int, int)
      reads this`base, this`strstart, this`blockStart, this`matchStart
    {
      (base + strstart, base + blockStart, Less32(strstart - 1, matchStart))
    }

    /**
     Moves the upper half of the window down. The start of a match put off may leave the window; its distance stays.
     */
    method Slide(more: int)
      requires Arrays() && Stream(State(), ps) && lookahead < MIN_LOOKAHEAD && strstart >= ps.wsize + MaxDist(ps)
      requires more == window.Length - lookahead - strstart
      modifies this`strstart, this`matchStart, this`blockStart, this`insert, this`base, this`owner, this`front,
               window, head, prev
      ensures Stream(State(), ps) && strstart == old(strstart) - ps.wsize && Place() == old(Place())
    {
      hide *;
      ghost var was := State();
      StateIs();
      PlaceIs();
      ArraysParts();
      SlideRoom();
      CopyDown(ps.wsize - more);
      matchStart := Less32(matchStart, ps.wsize);
      strstart := strstart - ps.wsize;
      blockStart := blockStart - ps.wsize;
      if insert > strstart { insert := strstart; }
      SlideHash();
      base := base + ps.wsize;
      front := if front >= ps.wsize then front - ps.wsize else 0;
      StateIs();
      StreamSlides(was, State(), ps);
      PlaceIs();
    }

    lemma StateIs()
      ensures State() == View(window[..], head[..], prev[..], owner, front, text, base, strstart, lookahead, insert,
        insH,
                              matchStart)
    {
    }

    lemma PlaceIs()
      ensures Place() == (base + strstart, base + blockStart, Less32(strstart - 1, matchStart))
    {
    }

    lemma ArraysParts()
      requires Arrays()
      ensures window != prev && window != head && prev != head && symBuf != window && symBuf != prev && symBuf != head
        && Sane(ps) && window.Length == 2 * ps.wsize && prev.Length == ps.wsize && head.Length == Pow2(ps.bits)
        && 512 <= ps.wsize <= 32768
    {
    }

    lemma SlideRoom()
      requires Arrays() && Stream(State(), ps) && strstart >= ps.wsize + MaxDist(ps)
      ensures 0 <= window.Length - lookahead - strstart <= ps.wsize && Bytes(window[..])
    {
      Sizes(strstart + lookahead);
    }

    /** Takes as much of the input as fits into size bytes at the given place. */
    method ReadBuf(at: int, size: int) returns (n: int)
      requires 0 <= at && 0 <= size && at + size <= window.Length
      modifies this`nextIn, this`text, window
      ensures n == (if |old(nextIn)| > size then size else |old(nextIn)|)
      ensures nextIn == old(nextIn)[n..] && text == old(text) + old(nextIn)[..n]
      ensures forall i {:trigger window[i]} :: 0 <= i < window.Length ==>
        window[i] == if at <= i < at + n then old(nextIn)[i - at] else old(window[i])
    {
      n := |nextIn|;
      if n > size { n := size; }
      for k := 0 to n
        invariant nextIn == old(nextIn) && text == old(text)
        invariant forall i {:trigger window[i]} :: 0 <= i < window.Length ==>
          window[i] == if at <= i < at + k then nextIn[i - at] else old(window[i])
      {
        window[at + k] := nextIn[k];
      }
      text := text + nextIn[..n];
      nextIn := nextIn[n..];
    }

    /** Starts the hash anew at the first string not inserted, and inserts those for which the bytes have come. */
    method InsertWaiting()
      requires Arrays() && InWindow(strstart + lookahead) && 0 <= strstart && 0 <= lookahead && 0 <= matchStart < WRAP32
      requires 0 <= insert <= strstart && front <= strstart - insert
      modifies this`insH, this`insert, this`owner, this`front, head, prev
      ensures Stream(State(), ps)
    {
      hide Windowed, HashAt, Pow2, Update, Stream;
      ghost var end := strstart + lookahead;
      Sizes(end);
      if lookahead + insert >= MIN_MATCH {
        var str := strstart - insert;
        HashFresh(window[..], str, end, ps);
        insH := Update(window[str], window[str + 1], ps.shift, ps.bits);
        while insert != 0
          invariant 0 <= insert <= strstart && str == strstart - insert && front <= str
            && lookahead + insert >= MIN_MATCH
          invariant InWindow(end) && HashAt(window[..], insH, str, end, ps)
          decreases insert
        {
          var _ := InsertString(str, end);
          str := str + 1;
          insert := insert - 1;
          if lookahead + insert < MIN_MATCH { break; }
        }
      }
      StreamAgain(State(), ps);
    }

    /** Clears the bytes behind the data that a match search may look at. */
    method ZeroAhead()
      requires Arrays() && Stream(State(), ps) && 0 <= highWater <= window.Length
      modifies this`highWater, window
      ensures Stream(State(), ps) && highWater <= window.Length
      ensures highWater >= strstart + lookahead + MAX_MATCH || highWater == window.Length
    {
      hide Stream, Pow2;
      ghost var was := State();
      StreamSizes(was, ps);
      if highWater < window.Length {
        var curr := strstart + lookahead;
        if highWater < curr {
          var init := window.Length - curr;
          if init > MAX_MATCH { init := MAX_MATCH; }
          Zero(curr, init);
          highWater := curr + init;
        } else if highWater < curr + MAX_MATCH {
          var init := curr + MAX_MATCH - highWater;
          if init > window.Length - highWater { init := window.Length - highWater; }
          Zero(highWater, init);
          highWater := highWater + init;
        }
      }
      StreamBehind(was, State(), ps);
    }

    method Zero(at: int, count: int)
      requires 0 <= at && 0 <= count && at + count <= window.Length
      modifies window
      ensures forall i {:trigger window[i]} :: 0 <= i < window.Length ==>
        window[i] == if at <= i < at + count then 0 else old(window[i])
    {
      for k := 0 to count
        invariant forall i {:trigger window[i]} :: 0 <= i < window.Length ==>
          window[i] == if at <= i < at + k then 0 else old(window[i])
      {
        window[at + k] := 0;
      }
    }

    /** Reads behind the data once there is room, and inserts the strings that waited. */
    method ReadMore(more: int)
      requires Arrays() && Stream(State(), ps) && Bytes(nextIn) && nextIn != []
      requires 0 < more <= window.Length - lookahead - strstart
      modifies this`nextIn, this`text, this`lookahead, this`insH, this`insert, this`owner, this`front, window, head,
               prev
      ensures Stream(State(), ps) && Bytes(nextIn) && |nextIn| < |old(nextIn)|
        && text + nextIn == old(text) + old(nextIn) && old(text) <= text
    {
      hide Stream, Pow2, Windowed;
      ghost var was, all := State(), nextIn;
      StreamSizes(was, ps);
      var n := ReadBuf(strstart + lookahead, more);
      lookahead := lookahead + n;
      StreamReads(was, State(), ps, all[..n]);
      assert all == all[..n] + all[n..];
      InsertWaiting();
    }

    /** fill_window. */
    method FillWindow()
      requires Arrays() && Stream(State(), ps) && Bytes(nextIn) && lookahead < MIN_LOOKAHEAD
        && 0 <= highWater <= window.Length
      modifies this`strstart, this`lookahead, this`insert, this`insH, this`matchStart, this`blockStart,
               this`highWater, this`nextIn,
               this`text, this`base, this`owner, this`front, window, head, prev
      ensures Stream(State(), ps) && Bytes(nextIn) && 0 <= highWater <= window.Length
      ensures text + nextIn == old(text) + old(nextIn) && old(text) <= text 
      ensures Place() == old(Place()) && (old(strstart) > 0 ==> strstart > 0)
      ensures strstart <= window.Length - MIN_LOOKAHEAD && (lookahead >= MIN_LOOKAHEAD || nextIn == [])
    {
      hide Stream, Pow2, Less32, Place, Arrays, Windowed;
      StreamSizes(State(), ps);
      while true
        invariant Stream(State(), ps) && Bytes(nextIn) && lookahead < MIN_LOOKAHEAD && 0 <= highWater <= window.Length
        invariant text + nextIn == old(text) + old(nextIn) && old(text) <= text
        invariant Place() == old(Place()) && (old(strstart) > 0 ==> strstart > 0)
        decreases |nextIn|
      {
        StreamSizes(State(), ps);
        var more := window.Length - lookahead - strstart;
        if strstart >= ps.wsize + MaxDist(ps) {
          Slide(more);
          more := more + ps.wsize;
        }
        if |nextIn| == 0 { break; }
        ReadMore(more);
        if lookahead >= MIN_LOOKAHEAD || |nextIn| == 0 { break; }
      }
      StreamSizes(State(), ps);
      ZeroAhead();
    }

    // ----- symbols and blocks ------------------------------------------------------------------------------------

    /** The buffer holds the symbols of the block being built. */
    ghost predicate Buffered()
      reads this`symNext, this`block, symBuf
    {
      Holds(symBuf[..], symNext, block) && symNext <= symEnd && 0 < symEnd && symEnd % 3 == 0
        && symEnd + 3 <= symBuf.Length
    }

    lemma NothingBuffered()
      requires Buffered() && symNext == 0
      ensures block == []
    {
    }

    method Tally(b0: int, b1: int, b2: int, ghost sym: Symbol) returns (full: bool)
      requires Buffered() && symNext < symEnd && SymbolOf(b0, b1, b2) == sym
      modifies this`symNext, this`block, symBuf
      ensures Buffered() && block == old(block) + [sym] && (if full then symNext == symEnd else symNext < symEnd)
    {
      hide SymbolOf;
      ghost var was := symBuf[..];
      symBuf[symNext] := b0;
      symBuf[symNext + 1] := b1;
      symBuf[symNext + 2] := b2;
      HoldsOneMore(was, symNext, block, symBuf[..], sym);
      symNext := symNext + 3;
      block := block + [sym];
      full := symNext == symEnd;
    }

    method TallyLit(c: int) returns (full: bool)
      requires Buffered() && symNext < symEnd
      modifies this`symNext, this`block, symBuf
      ensures Buffered() && block == old(block) + [Literal(c)] && (if full then symNext == symEnd else symNext < symEnd)
    {
      full := Tally(0, 0, c, Literal(c));
    }

    method TallyDist(dist: int, len: int) returns (full: bool)
      requires Buffered() && symNext < symEnd && 1 <= dist < 0x10000 && MIN_MATCH <= len <= MAX_MATCH
      modifies this`symNext, this`block, symBuf
      ensures Buffered() && block == old(block) + [Match(dist, len)]
        && (if full then symNext == symEnd else symNext < symEnd)
    {
      MatchBytes(dist, len);
      full := Tally(Byte(dist), Byte(dist / 256), Byte(len - MIN_MATCH), Match(dist, len));
    }

    /**
     The symbols tallied so far stand for the first n bytes of the text, and those sent for the bytes before the block.
     */
    ghost predicate Spelled(n: int)
      reads this`sent, this`block, this`text, this`base, this`blockStart
    {
      Tallied(sent + block, text, n, MaxDist(ps)) && Tallied(sent, text, base + blockStart, MaxDist(ps))
    }

    /**
     FLUSH_BLOCK_ONLY: gives up the block. Its symbols stand for exactly the bytes of the window from blockStart to
     strstart, which is what is stored in their place when that is shorter.
     */
    method FlushBlockOnly() returns (stored: int)
      requires Buffered() && Spelled(base + strstart)
      modifies this`symNext, this`block, this`sent, this`blocks, this`blockStart
      ensures sent == old(sent) + old(block) && block == [] && symNext == 0 && blockStart == strstart
      ensures blocks == old(blocks) + [old(block)]
      ensures Buffered() && Spelled(base + strstart) && stored == |Expand(sent)| - |Expand(old(sent))|
    {
      hide Tallied, SymbolOf, Expand, MaxDist;
      ghost var s, t := sent, sent + block;
      TalliedLength(s, text, base + blockStart, MaxDist(ps));
      TalliedLength(t, text, base + strstart, MaxDist(ps));
      var symbols := ReadBlock(symBuf, symNext, block);
      stored := strstart - blockStart;
      sent, block, blocks := sent + symbols, [], blocks + [symbols];
      symNext := 0;
      blockStart := strstart;
      assert sent + block == t;
    }

    /** The blocks handed over, from one to before another, were full. */
    ghost predicate FullFrom(from: int, to: int)
      reads this`blocks
    {
      0 <= from && to <= |blocks| && forall i {:trigger blocks[i]} :: from <= i < to ==> 3 * |blocks[i]| == symEnd
    }

    lemma NoneFull()
      ensures FullFrom(|blocks|, |blocks|)
    {
    }

    lemma BlockIsFull()
      requires Buffered() && symNext == symEnd
      ensures 3 * |block| == symEnd
    {
      hide SymbolOf;
    }

    lemma FullMore(was: seq<seq<Symbol>>)
      requires |blocks| == |was| + 1 && was <= blocks && 3 * |blocks[|was|]| == symEnd
      ensures FullFrom(|was|, |blocks|)
    {
    }

    lemma FullOn(from: int, was: seq<seq<Symbol>>)
      requires 0 <= from <= |was| && was <= blocks && FullFrom(|was|, |blocks|)
      requires forall i {:trigger was[i]} :: from <= i < |was| ==> 3 * |was[i]| == symEnd
      ensures FullFrom(from, |blocks|)
    {
      forall i {:trigger blocks[i]} | from <= i < |was| ensures 3 * |blocks[i]|
        == symEnd { assert blocks[i] == was[i]; }
    }

    lemma FullButLast(from: int, was: seq<seq<Symbol>>)
      requires 0 <= from <= |was| && was <= blocks && |blocks| <= |was| + 1
      requires forall i {:trigger was[i]} :: from <= i < |was| ==> 3 * |was[i]| == symEnd
      ensures FullFrom(from, |blocks|) || FullFrom(from, |blocks| - 1)
    {
      forall i {:trigger blocks[i]} | from <= i < |was| ensures 3 * |blocks[i]|
        == symEnd { assert blocks[i] == was[i]; }
    }

    lemma FullMeans(from: int, to: int)
      requires FullFrom(from, to)
      ensures 0 <= from && to <= |blocks| && forall i {:trigger blocks[i]} ::
        from <= i < to ==> 3 * |blocks[i]| == symEnd
    {
    }

    lemma SpelledLiteral(was: seq<Symbol>, n: int)
      requires Tallied(sent + was, text, n, MaxDist(ps)) && 0 <= n < |text| && 0 <= text[n] < 256
        && block == was + [Literal(text[n])]
      requires Tallied(sent, text, base + blockStart, MaxDist(ps))
      ensures Spelled(n + 1)
    {
      hide Tallied;
      TallyLiteral(sent + was, text, n, MaxDist(ps));
      assert sent + block == sent + was + [Literal(text[n])];
    }

    lemma SpelledMatch(was: seq<Symbol>, n: int, dist: int, len: int)
      requires Tallied(sent + was, text, n, MaxDist(ps)) && Repeats(text, n, dist, len)
        && block == was + [Match(dist, len)]
      requires dist <= MaxDist(ps) && MIN_MATCH <= len <= MAX_MATCH
      requires Tallied(sent, text, base + blockStart, MaxDist(ps))
      ensures Spelled(n + len)
    {
      hide Tallied, Repeats;
      TallyMatch(sent + was, text, n, MaxDist(ps), dist, len);
      assert sent + block == sent + was + [Match(dist, len)];
    }

    // ----- what was chosen ------------------------------------------------------------------------------------------

    /** The symbols are those of the turns so far, each of them chosen as it should be, and the next is at m. */
    ghost predicate Told(m: Mark)
      reads this`sent, this`block, this`turns, this`text
    {
      sent + block == Symbols(turns) && Chosen(turns, ps, config, text, m)
    }

    /** Where the lazy compressor is, and what it has put off. */
    ghost function Now(): Mark
      reads this`base, this`strstart, this`matchAvailable, this`matchLength, this`matchStart
    {
      Mark(base + strstart, matchAvailable, matchLength, Less32(strstart - 1, matchStart))
    }

    /** Where the greedy compressor is; it puts nothing off. */
    ghost function NowGreedy(): Mark
      reads this`base, this`strstart
    {
      Mark(base + strstart, false, MIN_MATCH - 1, 0)
    }

    /** One turn more is told. */
    lemma TellOn(was: seq<Symbol>, before: seq<Turn>, t: Turn, m: Mark, now: Mark)
      requires was == Symbols(before) && Chosen(before, ps, config, text, m) && Fair(t, ps, config, text)
      requires Meets(m, Before(t)) && Meets(After(t), now)
      requires sent + block == was + Emits(t) && turns == before + [t]
      ensures Told(now)
    {
      hide *;
      TurnMore(before, t, ps, config, text, m, now);
      ToldFrom(now);
    }

    lemma ToldFrom(m: Mark)
      requires sent + block == Symbols(turns) && Chosen(turns, ps, config, text, m)
      ensures Told(m)
    {
    }

    lemma ToldIs(m: Mark)
      requires Told(m)
      ensures sent + block == Symbols(turns) && Chosen(turns, ps, config, text, m)
    {
    }

    lemma GreedyMark()
      ensures NowGreedy() == Mark(base + strstart, false, MIN_MATCH - 1, 0)
    {
    }

    lemma LazyMark()
      ensures Now() == Mark(base + strstart, matchAvailable, matchLength, Less32(strstart - 1, matchStart))
    {
    }

    /** More text was read, and symbols moved from the block to what is sent. */
    lemma ToldStill(m: Mark, symbols: seq<Symbol>, was: seq<int>, m': Mark)
      requires symbols == Symbols(turns) && Chosen(turns, ps, config, was, m) && was <= text && Meets(m, m')
      requires sent + block == symbols
      ensures Told(m')
    {
      hide *;
      ChosenMeets(turns, ps, config, was, m, m');
      ChosenGrows(turns, ps, config, was, m', text);
      ToldFrom(m');
    }

    // ----- one string ----------------------------------------------------------------------------------------------

    /** Inserts the string at strstart if it has three bytes, and gives the head of its chain. */
    method FindHead() returns (hashHead: int)
      requires Arrays() && Stream(State(), ps) && 0 < lookahead
      modifies this`insH, this`owner, this`front, prev, head
      ensures Looked(State(), ps)
      ensures hashHead != NIL ==>
        lookahead >= MIN_MATCH && front == strstart + 1 && Candidate(hashHead, strstart + lookahead, strstart)
      ensures hashHead == HeadFor(old(State()), ps) && prev[..] == LinksFor(old(State()), ps)
    {
      hide Stream, Looked, Windowed, HashAt, OnChain, Pow2, KeyAt, ByteWindow;
      ghost var was := State();
      hashHead := NIL;
      if lookahead >= MIN_MATCH {
        StreamSizes(was, ps);
        StreamParts(was, ps);
        hashHead := InsertString(strstart, strstart + lookahead);
        LookedUp(was, State(), ps);
      } else {
        NothingToLookUp(was, ps);
      }
    }

    /** The literal at strstart goes out. */
    method EmitLiteral() returns (full: bool)
      requires Arrays() && Looked(State(), ps) && Buffered() && symNext < symEnd && Spelled(base + strstart)
      modifies this`strstart, this`lookahead, this`symNext, this`block, symBuf
      ensures Stream(State(), ps) && Buffered() && Spelled(base + strstart)
        && (if full then symNext == symEnd else symNext < symEnd)
      ensures strstart == old(strstart) + 1 && lookahead == old(lookahead) - 1
      ensures block == old(block) + [Literal(ByteAt(text, old(base + strstart)))]
    {
      hide Stream, Looked, Windowed, HashAt, Tallied, Holds, Pow2;
      ghost var was, b := State(), block;
      LookedSizes(was, ps);
      TextByte(was.window, was.head, was.prev, was.owner, was.front, text, base, strstart + lookahead, ps, strstart);
      full := TallyLit(window[strstart]);
      SpelledLiteral(b, base + strstart);
      lookahead := lookahead - 1;
      strstart := strstart + 1;
      LookedOn(was, State(), ps);
    }

    /**
     Goes past a match just tallied: its strings are inserted if it is short and enough is left, else the hash
     starts anew behind it.
     */
    method PassMatch()
      requires Arrays() && InWindow(strstart + matchLength + lookahead)
        && HashAt(window[..], insH, strstart + 1, strstart + matchLength + lookahead, ps)
      requires 0 <= strstart && front == strstart + 1 && MIN_MATCH <= matchLength <= MAX_MATCH && 0 <= lookahead
        && insert == 0
      requires strstart <= window.Length - MIN_LOOKAHEAD && 0 <= matchStart < WRAP32
      modifies this`strstart, this`matchLength, this`insH, this`owner, this`front, prev, head
      ensures Stream(State(), ps) && matchLength == 0 && strstart == old(strstart + matchLength)
    {
      hide Stream, Windowed, HashAt, Pow2, OnChain, Update;
      ghost var end := strstart + matchLength + lookahead;
      if matchLength <= config.maxLazy && lookahead >= MIN_MATCH {
        matchLength := matchLength - 1;
        while true
          invariant 0 < matchLength && end == strstart + 1 + matchLength + lookahead && front == strstart + 1
            && 0 <= strstart
          invariant InWindow(end) && HashAt(window[..], insH, strstart + 1, end, ps)
          decreases matchLength
        {
          strstart := strstart + 1;
          var _ := InsertString(strstart, end);
          matchLength := matchLength - 1;
          if matchLength == 0 { break; }
        }
        strstart := strstart + 1;
      } else {
        Sizes(end);
        strstart := strstart + matchLength;
        matchLength := 0;
        HashFresh(window[..], strstart, end, ps);
        insH := Update(window[strstart], window[strstart + 1], ps.shift, ps.bits);
      }
      StreamAgain(State(), ps);
    }

    /** What both compressors keep between strings: the symbols stand for the first n bytes of the text. */
    ghost predicate Running(n: int)
      reads this`text, this`base, this`owner, this`front, this`strstart, this`lookahead, this`insH, this`insert,
            this`matchStart, this`nextIn, this`highWater, this`symNext, this`block, this`sent, this`blockStart,
            window, head, prev, symBuf
    {
      Arrays() && Stream(State(), ps) && Bytes(nextIn) && 0 <= highWater <= window.Length && Buffered() && Spelled(n)
    }

    lemma RunningParts(n: int)
      requires Running(n)
      ensures Arrays() && Stream(State(), ps) && Bytes(nextIn) && 0 <= highWater <= window.Length && Buffered()
        && Spelled(n)
    {
    }

    lemma RunningAgain(n: int)
      requires Arrays() && Stream(State(), ps) && Bytes(nextIn) && 0 <= highWater <= window.Length && Buffered()
        && Spelled(n)
      ensures Running(n)
    {
    }

    lemma RunningSizes(n: int)
      requires Running(n)
      ensures 0 <= strstart && 0 <= lookahead && 0 <= base && base + strstart + lookahead == |text| && 0 < symEnd
    {
      hide Stream;
      StreamSizes(State(), ps);
    }

    /** FLUSH_BLOCK; says whether the output is full. */
    method FlushBlock() returns (outputFull: bool)
      requires Running(base + strstart)
      modifies this`symNext, this`block, this`sent, this`blocks, this`blockStart
      ensures Running(base + strstart) && sent == old(sent) + old(block) && block == [] && symNext == 0
      ensures blocks == old(blocks) + [old(block)]
    {
      hide Stream, Holds, Tallied;
      var _ := FlushBlockOnly();
      outputFull := *;
    }

    // ----- greedy --------------------------------------------------------------------------------------------------

    /** What deflate_fast keeps: the symbols stand for the text up to strstart. */
    ghost predicate Greedy()
      reads this`text, this`base, this`owner, this`front, this`strstart, this`lookahead, this`insH, this`insert,
            this`matchStart, this`nextIn, this`highWater, this`symNext, this`block, this`sent, this`blockStart,
              this`matchLength, this`prevLength,
            window, head, prev, symBuf
    {
      Running(base + strstart) && 0 <= matchLength < MIN_MATCH && prevLength == MIN_MATCH - 1
    }

    /** The match just found goes out. */
    method EmitMatch() returns (full: bool)
      requires Arrays() && Looked(State(), ps) && Buffered() && symNext < symEnd && Spelled(base + strstart)
      requires prevLength < MIN_MATCH <= matchLength <= MAX_MATCH && matchLength <= lookahead && Found(matchLength)
      requires front == strstart + 1 && strstart <= window.Length - MIN_LOOKAHEAD
      modifies this`strstart, this`lookahead, this`matchLength, this`insH, this`owner, this`front, this`symNext,
               this`block, prev, head, symBuf
      ensures Stream(State(), ps) && Buffered() && Spelled(base + strstart)
        && (if full then symNext == symEnd else symNext < symEnd)
      ensures strstart == old(strstart + matchLength) && lookahead == old(lookahead - matchLength) && matchLength == 0
      ensures block == old(block) + [Match(old(Less32(strstart, matchStart)), old(matchLength))]
    {
      hide Stream, Looked, Windowed, HashAt, Tallied, Holds, Pow2, SameBytes, Repeats;
      ghost var was, b := State(), block;
      LookedSizes(was, ps);
      FoundRepeats(was, ps, matchStart, matchLength);
      full := TallyDist(strstart - matchStart, matchLength);
      SpelledMatch(b, base + strstart, strstart - matchStart, matchLength);
      lookahead := lookahead - matchLength;
      PassMatch();
    }

    lemma GreedyParts()
      requires Greedy()
      ensures Running(base + strstart) && 0 <= matchLength < MIN_MATCH && prevLength == MIN_MATCH - 1 && MIN_MATCH == 3
      ensures MAX_MATCH == 258 && MIN_LOOKAHEAD == 262
    {
    }

    lemma GreedyAgain()
      requires Running(base + strstart) && 0 <= matchLength < MIN_MATCH && prevLength == MIN_MATCH - 1
      ensures Greedy()
    {
    }

    /** What a search from hashHead for something longer than length has found. */
    ghost predicate Finds(hashHead: int, length: int, seen: seq<int>, best: int)
      reads this`strstart, this`lookahead, this`matchStart, window, prev
    {
      && length <= best <= MAX_MATCH && |seen| <= Chain(config, length)
      && Searched(window[..], prev[..], ps.wsize, strstart, hashHead, seen, best, Limit(strstart, ps))
      && SearchDone(prev[..], ps.wsize, seen, best, Chain(config, length), Nice(config, lookahead), Limit(strstart, ps))
      && (best > length ==>
           SameBytes(window[..], strstart, strstart - Less32(strstart, matchStart), best)
           && Less32(strstart, matchStart) <= MaxDist(ps))
    }

    lemma FindsFrom(hashHead: int, seen: seq<int>, best: int)
      requires prevLength <= best <= MAX_MATCH && |seen| <= Chain(config, prevLength) && Found(best)
      requires 0 <= strstart < WRAP32
      requires Searched(window[..], prev[..], ps.wsize, strstart, hashHead, seen, best, Limit(strstart, ps))
      requires SearchDone(prev[..], ps.wsize, seen, best, Chain(config, prevLength), Nice(config, lookahead),
                          Limit(strstart, ps))
      ensures Finds(hashHead, prevLength, seen, best)
    {
      hide Searched, SearchDone;
    }

    /** A search from the newest string with the key of this one. */
    method TryMatch(hashHead: int) returns (ghost seen: seq<int>, ghost best: int)
      requires Arrays() && Looked(State(), ps) && strstart <= window.Length - MIN_LOOKAHEAD
        && prevLength == MIN_MATCH - 1
      requires lookahead >= MIN_MATCH && front == strstart + 1 && Candidate(hashHead, strstart + lookahead, strstart)
      requires strstart - hashHead <= MaxDist(ps)
      modifies this`matchLength, this`matchStart
      ensures Looked(State(), ps) && 0 <= matchLength <= MAX_MATCH && matchLength <= lookahead && Found(matchLength)
      ensures Finds(hashHead, MIN_MATCH - 1, seen, best) && matchLength == Least(best, lookahead)
    {
      hide Searched, SearchDone, Stream, Looked, Windowed, HashAt, OnChain, Pow2, SameBytes, Finds;
      ghost var was := State();
      LookedSizes(was, ps);
      matchLength, best, seen := LongestMatch(hashHead);
      FindsFrom(hashHead, seen, best);
      LookedElsewhere(was, State(), ps);
    }

    /** What was found is what the search of this turn is to find. */
    lemma FoundFor(v: View, hashHead: int, length: int, seen: seq<int>, best: int)
      requires Stream(v, ps) && v.window == window[..] && v.strstart == strstart && v.lookahead == lookahead
      requires hashHead == HeadFor(v, ps) && prev[..] == LinksFor(v, ps) && Finds(hashHead, length, seen, best)
      ensures SearchedFor(v, ps, config, length, seen, best, Less32(strstart, matchStart))
    {
      hide Stream, HeadFor, LinksFor, Searched, SearchDone, SameBytes, Less32;
    }

    lemma GreedyFair(v: View, hashHead: int, seen: seq<int>, best: int)
      requires Stream(v, ps) && v.text == text && v.base == base && v.strstart == strstart
        && 0 < v.lookahead == lookahead
      requires hashHead == HeadFor(v, ps)
      requires if hashHead != NIL && strstart - hashHead <= MaxDist(ps) then
          SearchedFor(v, ps, config, MIN_MATCH - 1, seen, best, Less32(strstart, matchStart))
          && matchLength == Least(best, lookahead)
        else matchLength < MIN_MATCH
      ensures Fair(Greedily(v, seen, best, matchLength, Less32(strstart, matchStart)), ps, config, text)
    {
      StreamSizes(v, ps);
      hide Stream, HeadFor, SearchedFor, Less32;
    }

    /** The string at strstart is inserted, and a match for it searched for. */
    method FastSearch() returns (ghost t: Turn)
      requires Arrays() && Stream(State(), ps) && 0 < lookahead && strstart <= window.Length - MIN_LOOKAHEAD
      requires 0 <= matchLength < MIN_MATCH && prevLength == MIN_MATCH - 1
      modifies this`matchStart, this`matchLength, this`insH, this`owner, this`front, prev, head
      ensures Looked(State(), ps) && 0 <= matchLength <= MAX_MATCH
      ensures matchLength >= MIN_MATCH ==> matchLength <= lookahead && Found(matchLength) && front == strstart + 1
      ensures Fair(t, ps, config, text) && t.Greedily? && t.v == old(State())
      ensures t.found == matchLength && t.back == Less32(strstart, matchStart)
    {
      hide *;
      ghost var v := State();
      StateIs();
      MatchSizes();
      ArraysParts();
      StreamSizes(v, ps);
      var hashHead := FindHead();
      ghost var seen, best := [], 0;
      if hashHead != NIL && strstart - hashHead <= MaxDist(ps) {
        seen, best := TryMatch(hashHead);
        FoundFor(v, hashHead, MIN_MATCH - 1, seen, best);
      }
      GreedyFair(v, hashHead, seen, best);
      t := Greedily(v, seen, best, matchLength, Less32(strstart, matchStart));
    }

    /** The match found goes out, or the byte at strstart as a literal. */
    method FastEmit() returns (full: bool)
      requires Arrays() && Looked(State(), ps) && Bytes(nextIn) && 0 <= highWater <= window.Length && Buffered()
      requires symNext < symEnd && Spelled(base + strstart) && strstart <= window.Length - MIN_LOOKAHEAD
      requires 0 <= matchLength <= MAX_MATCH && prevLength == MIN_MATCH - 1
      requires matchLength >= MIN_MATCH ==> matchLength <= lookahead && Found(matchLength) && front == strstart + 1
      modifies this`strstart, this`lookahead, this`matchLength, this`insH, this`owner, this`front, this`symNext,
               this`block, prev, head, symBuf
      ensures Running(base + strstart) && 0 <= matchLength < MIN_MATCH
        && (if full then symNext == symEnd else symNext < symEnd)
      ensures strstart + lookahead == old(strstart + lookahead)
      ensures strstart == old(strstart + if matchLength >= MIN_MATCH then matchLength else 1)
      ensures block == old(block) + [if old(matchLength) >= MIN_MATCH
        then Match(old(Less32(strstart, matchStart)), old(matchLength))
                                     else Literal(ByteAt(text, old(base + strstart)))]
    {
      hide *;
      MatchSizes();
      if matchLength >= MIN_MATCH {
        full := EmitMatch();
      } else {
        full := EmitLiteral();
      }
      RunningAgain(base + strstart);
    }

    /** One string of deflate_fast: a literal, or a match as soon as there is one. */
    method FastStep() returns (full: bool)
      requires Greedy() && 0 < lookahead && symNext < symEnd && strstart <= window.Length - MIN_LOOKAHEAD
      requires Told(NowGreedy())
      modifies this`strstart, this`lookahead, this`matchStart, this`matchLength, this`insH, this`owner, this`front,
               this`symNext, this`block, this`turns, prev, head, symBuf
      ensures Greedy() && (if full then symNext == symEnd else symNext < symEnd)
        && strstart + lookahead == old(strstart + lookahead) && lookahead < old(lookahead)
      ensures Told(NowGreedy()) && |turns| == |old(turns)| + 1 && old(turns) <= turns
      ensures var t := turns[|old(turns)|]; t.Greedily? && t.v == old(State())
    {
      hide *;
      GreedyParts();
      RunningParts(base + strstart);
      ArraysParts();
      ToldIs(NowGreedy());
      GreedyMark();
      StateIs();
      ghost var m, symbols, before := NowGreedy(), sent + block, turns;
      ghost var t := FastSearch();
      GreedyTurn(t);
      turns := turns + [t];
      full := FastEmit();
      assert sent + block == symbols + Emits(t);
      GreedyMark();
      MeetsItself(NowGreedy());
      MeetsItself(m);
      TellOn(symbols, before, t, m, NowGreedy());
      GreedyAgain();
    }

    lemma SpelledLonger(was: seq<int>, n: int)
      requires Tallied(sent + block, was, n, MaxDist(ps)) && Tallied(sent, was, base + blockStart, MaxDist(ps))
        && was <= text
      ensures Spelled(n)
    {
      TextLonger(sent + block, was, n, MaxDist(ps), text);
      TextLonger(sent, was, base + blockStart, MaxDist(ps), text);
    }

    /** Looks ahead as far as a match may reach, if the input goes that far. */
    method LookAhead(ghost n: int)
      requires Running(n)
      modifies this`strstart, this`lookahead, this`insert, this`insH, this`matchStart, this`blockStart,
               this`highWater, this`nextIn,
               this`text, this`base, this`owner, this`front, window, head, prev
      ensures Running(n) && text + nextIn == old(text) + old(nextIn) && old(text) <= text
      ensures Place() == old(Place()) && (old(strstart) > 0 ==> strstart > 0)
      ensures strstart <= window.Length - MIN_LOOKAHEAD && (lookahead >= MIN_LOOKAHEAD || nextIn == [])
    {
      hide Stream, Tallied, Less32, Pow2, Holds;
      ghost var was := text;
      StreamSizes(State(), ps);
      if lookahead < MIN_LOOKAHEAD {
        FillWindow();
        SpelledLonger(was, n);
      }
    }

    lemma AllSpelled()
      requires Stream(State(), ps) && lookahead == 0 && Spelled(base + strstart)
      ensures Expand(sent + block) == text
    {
      StreamSizes(State(), ps);
      assert text[..|text|] == text;
    }

    /** The last block of a call that has used up the input. */
    method LastBlock(flush: Flush) returns (status: Status)
      requires Running(base + strstart) && lookahead == 0
      modifies this`insert, this`symNext, this`block, this`sent, this`blocks, this`blockStart
      ensures Running(base + strstart) && old(sent) <= sent && block == [] && symNext == 0 && Expand(sent) == text
      ensures sent == old(sent + block) && (blocks == old(blocks) || blocks == old(blocks) + [old(block)])
    {
      hide *;
      ghost var was := State();
      StateIs();
      RunningParts(base + strstart);
      insert := if strstart < MIN_MATCH - 1 then strstart else MIN_MATCH - 1;
      StateIs();
      InputEnds(was, State(), ps);
      RunningAgain(base + strstart);
      if flush.Finish? {
        var outputFull := FlushBlock();
        status := if outputFull then FinishStarted else FinishDone;
      } else {
        status := BlockDone;
        if symNext != 0 {
          var outputFull := FlushBlock();
          if outputFull { status := NeedMore; }
        } else {
          NothingBuffered();
        }
      }
      RunningParts(base + strstart);
      AllSpelled();
      assert sent + block == sent;
    }

    method GreedyLookAhead()
      requires Greedy() && Told(NowGreedy())
      modifies this`strstart, this`lookahead, this`insert, this`insH, this`matchStart, this`blockStart,
               this`highWater, this`nextIn,
               this`text, this`base, this`owner, this`front, window, head, prev
      ensures Greedy() && Told(NowGreedy()) && text + nextIn == old(text) + old(nextIn)
      ensures base + strstart == old(base + strstart)
      ensures strstart <= window.Length - MIN_LOOKAHEAD && (lookahead >= MIN_LOOKAHEAD || nextIn == [])
      ensures 0 <= lookahead && base + strstart + lookahead == |text| && 0 < symEnd
    {
      hide *;
      GreedyParts();
      ghost var m, symbols, was := NowGreedy(), sent + block, text;
      ToldIs(m);
      GreedyMark();
      PlaceIs();
      LookAhead(base + strstart);
      PlaceIs();
      GreedyMark();
      MeetsItself(m);
      ToldStill(m, symbols, was, NowGreedy());
      RunningSizes(base + strstart);
      GreedyAgain();
    }

    method GreedyFlush() returns (outputFull: bool)
      requires Greedy() && Told(NowGreedy()) && symNext == symEnd
      modifies this`symNext, this`block, this`sent, this`blocks, this`blockStart
      ensures Greedy() && Told(NowGreedy()) && old(sent) <= sent && symNext == 0
      ensures old(blocks) <= blocks && FullFrom(|old(blocks)|, |blocks|)
    {
      hide *;
      GreedyParts();
      RunningParts(base + strstart);
      BlockIsFull();
      ghost var was := blocks;
      ghost var symbols, m := sent + block, NowGreedy();
      ToldIs(m);
      GreedyMark();
      outputFull := FlushBlock();
      GreedyMark();
      MeetsItself(m);
      assert sent + [] == sent;
      ToldStill(m, symbols, text, NowGreedy());
      FullMore(was);
      GreedyAgain();
    }

    method GreedyLastBlock(flush: Flush) returns (status: Status)
      requires Greedy() && Told(NowGreedy()) && lookahead == 0
      modifies this`insert, this`symNext, this`block, this`sent, this`blocks, this`blockStart
      ensures Greedy() && Told(NowGreedy()) && old(sent) <= sent && block == [] && symNext == 0 && Expand(sent) == text
      ensures old(blocks) <= blocks && |blocks| <= |old(blocks)| + 1
    {
      hide *;
      GreedyParts();
      ghost var symbols, m := sent + block, NowGreedy();
      ToldIs(m);
      GreedyMark();
      status := LastBlock(flush);
      GreedyMark();
      MeetsItself(m);
      assert sent + [] == sent;
      ToldStill(m, symbols, text, NowGreedy());
      GreedyAgain();
    }

    /**
     deflate_fast. When it reports the end of a block or of the stream, all the input is spelled out in what was sent.
     Every turn of its loop is told: the match searched for is sent at once if there is one, else the byte.
     */
    method DeflateFast(flush: Flush) returns (status: Status)
      requires Greedy() && symNext < symEnd && Told(NowGreedy())
      modifies this, window, head, prev, symBuf
      ensures Greedy() && symNext < symEnd && Told(NowGreedy()) && old(turns) <= turns
      ensures old(blocks) <= blocks && (FullFrom(|old(blocks)|, |blocks|) ||
                (!flush.NoFlush? && nextIn == [] && FullFrom(|old(blocks)|, |blocks| - 1)))
      ensures text + nextIn == old(text) + old(nextIn) && old(sent) <= sent
      ensures !status.NeedMore? ==> nextIn == [] && Expand(sent) == text && block == []
    {
      hide *;
      MatchSizes();
      ghost var total := |text + nextIn|;
      NoneFull();
      while true
        invariant Greedy() && symNext < symEnd && text + nextIn == old(text) + old(nextIn) && old(sent) <= sent
        invariant Told(NowGreedy()) && old(turns) <= turns
        invariant old(blocks) <= blocks && FullFrom(|old(blocks)|, |blocks|)
        decreases total - (base + strstart)
      {
        GreedyLookAhead();
        if lookahead < MIN_LOOKAHEAD && flush.NoFlush? { return NeedMore; }
        if lookahead == 0 { break; }
        var full := FastStep();
        if full {
          ghost var was := blocks;
          FullMeans(|old(blocks)|, |blocks|);
          var outputFull := GreedyFlush();
          FullOn(|old(blocks)|, was);
          if outputFull { return NeedMore; }
        }
      }
      ghost var was := blocks;
      FullMeans(|old(blocks)|, |blocks|);
      status := GreedyLastBlock(flush);
      FullButLast(|old(blocks)|, was);
    }

    // ----- lazy ----------------------------------------------------------------------------------------------------

    /** How far into the text the symbols reach: the byte before strstart may be put off. */
    ghost function Reach(): int
      reads this`base, this`strstart, this`matchAvailable
    {
      base + strstart - if matchAvailable then 1 else 0
    }

    /** What deflate_slow keeps. A match put off starts at the byte put off; its start may have left the window. */
    ghost predicate Lazy()
      reads this`text, this`base, this`owner, this`front, this`strstart, this`lookahead, this`insH, this`insert,
            this`matchStart, this`nextIn, this`highWater, this`symNext, this`block, this`sent, this`blockStart,
              this`matchLength, this`matchAvailable,
            window, head, prev, symBuf
    {
      && Running(Reach()) && (matchAvailable ==> 0 < strstart)
      && Pending(matchAvailable, matchLength, Less32(strstart - 1, matchStart), text, base + strstart, MaxDist(ps))
    }

    /** Looks for a match at strstart that beats the one put off. */
    method LazySearch(hashHead: int) returns (ghost seen: seq<int>, ghost best: int)
      requires Arrays() && Looked(State(), ps) && 2 <= matchLength <= MAX_MATCH
        && strstart <= window.Length - MIN_LOOKAHEAD
      requires hashHead != NIL ==>
        lookahead >= MIN_MATCH && front == strstart + 1 && Candidate(hashHead, strstart + lookahead, strstart)
      modifies this`prevLength, this`prevMatch, this`matchLength, this`matchStart
      ensures Looked(State(), ps) && prevLength == old(matchLength) && prevMatch == old(matchStart)
        && 2 <= matchLength <= MAX_MATCH
      ensures matchLength > prevLength ==>
        1 <= strstart - matchStart <= MaxDist(ps) && Repeats(text, base + strstart, strstart - matchStart, matchLength)
      ensures if hashHead != NIL && prevLength < config.maxLazy && strstart - hashHead <= MaxDist(ps) then
          Finds(hashHead, prevLength, seen, best)
          && matchLength == Counts(config, Least(best, lookahead), Less32(strstart, matchStart))
        else matchLength == MIN_MATCH - 1
    {
      hide *;
      MatchSizes();
      ArraysParts();
      ghost var was := State();
      LookedSizes(was, ps);
      StateIs();
      LookedWindow();
      seen, best := [], 0;
      prevLength, prevMatch := matchLength, matchStart;
      matchLength := MIN_MATCH - 1;
      if hashHead != NIL && prevLength < config.maxLazy && strstart - hashHead <= MaxDist(ps) {
        matchLength, best, seen := LongestMatch(hashHead);
        FindsFrom(hashHead, seen, best);
        StateIs();
        MatchFound(was, matchLength);
        CountsIs(config, matchLength, Less32(strstart, matchStart));
        if matchLength <= 5
          && (config.filtered || (matchLength == MIN_MATCH && Less32(strstart, matchStart) > TOO_FAR)) {
          matchLength := MIN_MATCH - 1;
        }
      }
      LeastIs(best, lookahead);
    }

    lemma LookedWindow()
      requires Looked(State(), ps)
      ensures InWindow(strstart + lookahead) && 65536 < WRAP32
    {
      hide Windowed;
    }

    /** What LongestMatch has done to the state, and the match it found. */
    lemma MatchFound(was: View, n: int)
      requires Looked(was, ps) && State() == was.(matchStart := matchStart) && Found(n)
      ensures Looked(State(), ps)
      ensures n > prevLength && n <= lookahead ==>
        1 <= strstart - matchStart <= MaxDist(ps) && Repeats(text, base + strstart, strstart - matchStart, n)
    {
      hide Looked, Windowed, SameBytes, Repeats;
      LookedElsewhere(was, State(), ps);
      if n > prevLength && n <= lookahead { FoundRepeats(State(), ps, matchStart, n); }
    }

    /** On to the next string, which is inserted if it has three bytes. */
    method PassOne(maxInsert: int, ghost end: int)
      requires Arrays() && InWindow(end) && HashAt(window[..], insH, strstart + 1, end, ps)
        && maxInsert == end - MIN_MATCH
      requires front <= strstart + 1 && 0 <= strstart
      modifies this`strstart, this`insH, this`owner, this`front, prev, head
      ensures strstart == old(strstart) + 1 && front <= strstart + 1
      ensures InWindow(end) && HashAt(window[..], insH, strstart + 1, end, ps)
    {
      hide Windowed, HashAt, OnChain, Pow2;
      strstart := strstart + 1;
      if strstart <= maxInsert {
        var _ := InsertString(strstart, end);
      } else {
        NoString(strstart + 1, end);
      }
    }

    /** Inserts the strings of the match put off, as far as they have three bytes. */
    method PassPrevious()
      requires Arrays() && Looked(State(), ps) && MIN_MATCH <= prevLength <= MAX_MATCH && prevLength - 1 <= lookahead
      modifies this`strstart, this`lookahead, this`prevLength, this`insH, this`owner, this`front, prev, head
      ensures Stream(State(), ps) && strstart == old(strstart + prevLength - 1)
        && strstart + lookahead == old(strstart + lookahead)
    {
      hide Looked, Stream, Windowed, HashAt, OnChain, Pow2;
      LookedSizes(State(), ps);
      ghost var end := strstart + lookahead;
      var maxInsert := strstart + lookahead - MIN_MATCH;
      lookahead := lookahead - (prevLength - 1);
      prevLength := prevLength - 2;
      while true
        invariant 0 < prevLength && end == strstart + 1 + prevLength + lookahead && front <= strstart + 1
          && 0 <= strstart
        invariant lookahead == old(lookahead - (prevLength - 1))
        invariant InWindow(end) && HashAt(window[..], insH, strstart + 1, end, ps)
        decreases prevLength
      {
        PassOne(maxInsert, end);
        prevLength := prevLength - 1;
        if prevLength == 0 { break; }
      }
      strstart := strstart + 1;
      StreamAgain(State(), ps);
    }

    lemma NoString(p: int, end: int)
      requires p + 2 >= end
      ensures HashAt(window[..], insH, p, end, ps)
    {
    }

    /** The match put off goes out. */
    method EmitPrevious() returns (full: bool)
      requires Arrays() && Looked(State(), ps) && Buffered() && symNext < symEnd && Spelled(base + strstart - 1)
      requires Pending(true, prevLength, Less32(strstart - 1, prevMatch), text, base + strstart, MaxDist(ps))
        && MIN_MATCH <= prevLength
      modifies this`strstart, this`lookahead, this`matchLength, this`matchAvailable, this`prevLength, this`insH,
               this`owner, this`front,
               this`symNext, this`block, prev, head, symBuf
      ensures Stream(State(), ps) && Buffered() && Spelled(base + strstart)
        && (if full then symNext == symEnd else symNext < symEnd)
      ensures strstart > old(strstart) && strstart + lookahead == old(strstart + lookahead) && !matchAvailable
        && matchLength == 2
      ensures strstart == old(strstart + prevLength - 1)
      ensures block == old(block) + [Match(old(Less32(strstart - 1, prevMatch)), old(prevLength))]
    {
      hide Looked, Stream, Windowed, HashAt, Tallied, Holds, Pow2, Less32, Repeats;
      ghost var b := block;
      LookedSizes(State(), ps);
      RepeatsFits(text, base + strstart - 1, Less32(strstart - 1, prevMatch), prevLength);
      full := TallyDist(Less32(strstart - 1, prevMatch), prevLength);
      SpelledMatch(b, base + strstart - 1, Less32(strstart - 1, prevMatch), prevLength);
      PassPrevious();
      matchAvailable := false;
      matchLength := MIN_MATCH - 1;
    }

    /** The byte put off goes out as a literal. */
    method EmitPutOff() returns (full: bool)
      requires Arrays() && Looked(State(), ps) && 0 < strstart && Buffered() && symNext < symEnd
        && Spelled(base + strstart - 1)
      modifies this`symNext, this`block, symBuf
      ensures Looked(State(), ps) && Buffered() && Spelled(base + strstart)
        && (if full then symNext == symEnd else symNext < symEnd)
      ensures block == old(block) + [Literal(ByteAt(text, base + strstart - 1))]
    {
      hide Looked, Windowed, HashAt, Tallied, Holds, Pow2;
      ghost var was, b := State(), block;
      LookedSizes(was, ps);
      TextByte(was.window, was.head, was.prev, was.owner, was.front, text, base, strstart + lookahead, ps,
          strstart - 1);
      full := TallyLit(window[strstart - 1]);
      SpelledLiteral(b, base + strstart - 1);
    }

    /** On to the next string; the byte at strstart is put off. */
    method PutOff()
      requires Arrays() && Looked(State(), ps) && Bytes(nextIn) && 0 <= highWater <= window.Length && Buffered()
        && Spelled(base + strstart)
      requires 2 <= matchLength <= MAX_MATCH
      requires matchLength >= MIN_MATCH ==>
        1 <= strstart - matchStart <= MaxDist(ps) && Repeats(text, base + strstart, strstart - matchStart, matchLength)
      modifies this`strstart, this`lookahead, this`matchAvailable
      ensures Lazy() && strstart == old(strstart) + 1 && lookahead == old(lookahead) - 1 && matchAvailable
    {
      hide Looked, Stream, Windowed, HashAt, Tallied, Holds, Pow2, Repeats;
      ghost var was := State();
      LookedSizes(was, ps);
      matchAvailable := true;
      strstart := strstart + 1;
      lookahead := lookahead - 1;
      LookedOn(was, State(), ps);
    }

    /** The match put off and the match at strstart, if it is better, are both known. */
    ghost predicate Weighed()
      reads this`text, this`base, this`owner, this`front, this`strstart, this`lookahead, this`insH, this`insert,
            this`matchStart, this`nextIn, this`highWater, this`symNext, this`block, this`sent, this`blockStart,
              this`matchLength, this`matchAvailable,
            this`prevLength, this`prevMatch,
            window, head, prev, symBuf
    {
      && Arrays() && Looked(State(), ps) && Bytes(nextIn) && 0 <= highWater <= window.Length && Buffered()
           && symNext < symEnd
      && Spelled(Reach()) && (matchAvailable ==> 0 < strstart) && 2 <= matchLength <= MAX_MATCH
      && Pending(matchAvailable, prevLength, Less32(strstart - 1, prevMatch), text, base + strstart, MaxDist(ps))
      && (matchLength > prevLength ==>
           1 <= strstart - matchStart <= MaxDist(ps)
           && Repeats(text, base + strstart, strstart - matchStart, matchLength))
    }

    method Weigh() returns (ghost t: Turn)
      requires Lazy() && 0 < lookahead && symNext < symEnd && strstart <= window.Length - MIN_LOOKAHEAD
      modifies this`matchStart, this`matchLength, this`prevMatch, this`prevLength, this`insH, this`owner, this`front,
               this`turns, prev, head
      ensures Weighed() && turns == old(turns) + [t]
      ensures Fair(t, ps, config, text) && t.Lazily? && t.v == old(State()) && Before(t) == old(Now())
      ensures t.available == matchAvailable && t.length == prevLength && t.dist == Less32(strstart - 1, prevMatch)
      ensures t.found == matchLength && t.back == Less32(strstart, matchStart)
    {
      hide *;
      LazyParts();
      ArraysParts();
      LazyMark();
      StateIs();
      t := WeighAt();
      LazyTurn(t);
      turns := turns + [t];
      WeighedFrom();
    }

    /** The search of a turn, with what it found. */
    method WeighAt() returns (ghost t: Turn)
      requires Arrays() && Stream(State(), ps) && 0 < lookahead && strstart <= window.Length - MIN_LOOKAHEAD
        && 2 <= matchLength <= MAX_MATCH && (matchAvailable ==> 0 < strstart)
      modifies this`matchStart, this`matchLength, this`prevMatch, this`prevLength, this`insH, this`owner, this`front,
               prev, head
      ensures Looked(State(), ps) && 2 <= matchLength <= MAX_MATCH
        && prevLength == old(matchLength) && prevMatch == old(matchStart)
      ensures matchLength > prevLength ==>
        1 <= strstart - matchStart <= MaxDist(ps) && Repeats(text, base + strstart, strstart - matchStart, matchLength)
      ensures Fair(t, ps, config, text) && t.Lazily? && t.v == old(State())
      ensures t.available == matchAvailable && t.length == prevLength && t.dist == Less32(strstart - 1, prevMatch)
      ensures t.found == matchLength && t.back == Less32(strstart, matchStart)
    {
      hide *;
      StateIs();
      ArraysParts();
      ghost var v := State();
      var hashHead := FindHead();
      ghost var seen, best := LazySearch(hashHead);
      if hashHead != NIL && prevLength < config.maxLazy && strstart - hashHead <= MaxDist(ps) {
        FoundFor(v, hashHead, prevLength, seen, best);
      }
      LazyFair(v, hashHead, seen, best);
      t := Lazily(v, matchAvailable, prevLength, Less32(strstart - 1, prevMatch), seen, best, matchLength,
          Less32(strstart, matchStart));
    }

    lemma LazyParts()
      requires Lazy()
      ensures Arrays() && Stream(State(), ps) && Bytes(nextIn) && 0 <= highWater <= window.Length && Buffered()
      ensures Spelled(Reach()) && Reach() == base + strstart - (if matchAvailable then 1 else 0)
      ensures (matchAvailable ==> 0 < strstart) && 2 <= matchLength <= MAX_MATCH
      ensures Pending(matchAvailable, matchLength, Less32(strstart - 1, matchStart), text, base + strstart, MaxDist(ps))
    {
      hide Stream, Buffered, Spelled, Arrays;
    }

    lemma WeighedFrom()
      requires Arrays() && Looked(State(), ps) && Bytes(nextIn) && 0 <= highWater <= window.Length && Buffered()
        && symNext < symEnd && Spelled(Reach()) && (matchAvailable ==> 0 < strstart) && 2 <= matchLength <= MAX_MATCH
      requires Pending(matchAvailable, prevLength, Less32(strstart - 1, prevMatch), text, base + strstart, MaxDist(ps))
      requires matchLength > prevLength ==>
        1 <= strstart - matchStart <= MaxDist(ps) && Repeats(text, base + strstart, strstart - matchStart, matchLength)
      ensures Weighed()
    {
      hide Looked, Buffered, Spelled, Arrays;
    }

    lemma WeighedParts()
      requires Weighed()
      ensures (prevLength >= MIN_MATCH ==> matchAvailable) && 2 <= matchLength && MIN_MATCH == 3
    {
      hide Looked, Spelled, Buffered;
    }

    lemma LazyFair(v: View, hashHead: int, seen: seq<int>, best: int)
      requires Stream(v, ps) && v.text == text && v.base == base && v.strstart == strstart
        && 0 < v.lookahead == lookahead
      requires hashHead == HeadFor(v, ps) && (matchAvailable ==> 0 < strstart)
      requires if hashHead != NIL && prevLength < config.maxLazy && strstart - hashHead <= MaxDist(ps) then
          SearchedFor(v, ps, config, prevLength, seen, best, Less32(strstart, matchStart))
          && matchLength == Counts(config, Least(best, lookahead), Less32(strstart, matchStart))
        else matchLength == MIN_MATCH - 1
      ensures Fair(Lazily(v, matchAvailable, prevLength, Less32(strstart - 1, prevMatch), seen, best, matchLength,
                     Less32(strstart, matchStart)), ps, config, text)
    {
      StreamSizes(v, ps);
      hide Stream, HeadFor, SearchedFor, Less32, Counts;
    }

    method TakePrevious() returns (full: bool)
      requires Weighed() && prevLength >= MIN_MATCH
      modifies this`strstart, this`lookahead, this`matchLength, this`matchAvailable, this`prevLength, this`insH,
               this`owner, this`front,
               this`symNext, this`block, prev, head, symBuf
      ensures Lazy() && (if full then !matchAvailable && symNext == symEnd else symNext < symEnd)
      ensures strstart + lookahead == old(strstart + lookahead) && strstart > old(strstart)
      ensures strstart == old(strstart + prevLength - 1) && !matchAvailable && matchLength == MIN_MATCH - 1
      ensures block == old(block) + [Match(old(Less32(strstart - 1, prevMatch)), old(prevLength))]
    {
      hide Looked, Stream, Windowed, HashAt, Tallied, Holds, Pow2, Repeats, Less32;
      full := EmitPrevious();
    }

    method TakePutOff()
      requires Weighed() && matchAvailable && (prevLength >= MIN_MATCH ==> matchLength > prevLength)
      modifies this`strstart, this`lookahead, this`matchAvailable, this`symNext, this`block, this`sent, this`blocks,
               this`blockStart, symBuf
      ensures Lazy() && symNext < symEnd && strstart == old(strstart) + 1 && lookahead == old(lookahead) - 1
        && old(sent) <= sent && old(blocks) <= blocks && FullFrom(|old(blocks)|, |blocks|)
      ensures matchAvailable && sent + block == old(sent + block) + [Literal(ByteAt(text, old(base + strstart - 1)))]
    {
      hide *;
      WeighedIs();
      ArraysParts();
      ghost var was := blocks;
      NoneFull();
      var flush := EmitPutOff();
      if flush {
        BlockIsFull();
        var _ := FlushBlockOnly();
        FullMore(was);
      }
      PutOff();
    }

    lemma WeighedIs()
      requires Weighed()
      ensures Arrays() && Looked(State(), ps) && Bytes(nextIn) && 0 <= highWater <= window.Length && Buffered()
        && symNext < symEnd && 2 <= matchLength <= MAX_MATCH && (matchAvailable ==> 0 < strstart && 0 < symEnd)
      ensures Spelled(if matchAvailable then base + strstart - 1 else base + strstart)
      ensures matchLength > prevLength ==>
        1 <= strstart - matchStart <= MaxDist(ps) && Repeats(text, base + strstart, strstart - matchStart, matchLength)
      ensures (prevLength >= MIN_MATCH ==> matchAvailable) && 2 <= prevLength && MIN_MATCH == 3
    {
      hide Looked, Spelled, Arrays, Repeats, Less32, Holds;
    }

    method TakeNothing()
      requires Weighed() && !matchAvailable
      modifies this`strstart, this`lookahead, this`matchAvailable
      ensures Lazy() && strstart == old(strstart) + 1 && lookahead == old(lookahead) - 1 && matchAvailable
    {
      hide Looked, Stream, Windowed, HashAt, Tallied, Holds, Pow2, Repeats, Less32;
      PutOff();
    }

    /**
     One string of deflate_slow. Without room for output it stops after a literal, the block flushed if it was full.
     */
    method SlowStep() returns (full: bool, stop: bool)
      requires Lazy() && 0 < lookahead && symNext < symEnd && strstart <= window.Length - MIN_LOOKAHEAD && Told(Now())
      modifies this`strstart, this`lookahead, this`matchStart, this`matchLength, this`matchAvailable, this`prevMatch,
               this`prevLength, this`turns,
               this`insH, this`owner, this`front, this`symNext, this`block, this`sent, this`blocks, this`blockStart,
                 prev, head,
                 symBuf
      ensures Lazy() && (if full then !matchAvailable && symNext == symEnd else symNext < symEnd)
      ensures strstart + lookahead == old(strstart + lookahead) && strstart > old(strstart) && old(sent) <= sent
      ensures Told(Now()) && |turns| == |old(turns)| + 1 && old(turns) <= turns
      ensures var t := turns[|old(turns)|]; t.Lazily? && t.v == old(State()) && Before(t) == old(Now())
      ensures old(blocks) <= blocks && FullFrom(|old(blocks)|, |blocks|)
    {
      hide *;
      NoneFull();
      full, stop := false, false;
      ToldIs(Now());
      StateIs();
      ghost var m, symbols, before := Now(), sent + block, turns;
      ghost var t := Weigh();
      LazyTurn(t);
      WeighedParts();
      if prevLength >= MIN_MATCH && matchLength <= prevLength {
        full := TakePrevious();
        assert sent + block == symbols + Emits(t);
      } else if matchAvailable {
        TakePutOff();
        stop := *;
      } else {
        TakeNothing();
        assert symbols + [] == symbols;
      }
      LazyMark();
      MeetsFrom(After(t), Now());
      MeetsItself(m);
      TellOn(symbols, before, t, m, Now());
    }

    /** A string, and the block if it is full; says whether the output is. */
    method SlowTurn() returns (wait: bool)
      requires Lazy() && 0 < lookahead && symNext < symEnd && strstart <= window.Length - MIN_LOOKAHEAD && Told(Now())
      modifies this`strstart, this`lookahead, this`matchStart, this`matchLength, this`matchAvailable, this`prevMatch,
               this`prevLength, this`turns, this`insH, this`owner, this`front, this`symNext, this`block, this`sent,
               this`blocks, this`blockStart, prev, head, symBuf
      ensures Lazy() && symNext < symEnd && Told(Now()) && old(turns) <= turns && old(sent) <= sent
      ensures strstart + lookahead == old(strstart + lookahead) && strstart > old(strstart)
      ensures old(blocks) <= blocks && FullFrom(|old(blocks)|, |blocks|)
    {
      hide *;
      var full, stop := SlowStep();
      wait := stop;
      if full {
        ghost var was := blocks;
        FullMeans(|old(blocks)|, |blocks|);
        var outputFull := LazyFlush();
        FullOn(|old(blocks)|, was);
        if outputFull { wait := true; }
      }
    }

    method LazyLookAhead()
      requires Lazy() && Told(Now())
      modifies this`strstart, this`lookahead, this`insert, this`insH, this`matchStart, this`blockStart,
               this`highWater, this`nextIn,
               this`text, this`base, this`owner, this`front, window, head, prev
      ensures Lazy() && text + nextIn == old(text) + old(nextIn) && base + strstart == old(base + strstart)
      ensures strstart <= window.Length - MIN_LOOKAHEAD && (lookahead >= MIN_LOOKAHEAD || nextIn == [])
      ensures 0 <= lookahead && base + strstart + lookahead == |text| && Told(Now())
    {
      hide *;
      LazyRuns();
      LazyParts();
      ghost var m, symbols, was := Now(), sent + block, text;
      ToldIs(m);
      LazyMark();
      PlaceIs();
      LookAhead(Reach());
      PlaceIs();
      LazyMark();
      MeetsItself(m);
      ToldStill(m, symbols, was, Now());
      ReachIs();
      PendingGrows(matchAvailable, matchLength, Less32(strstart - 1, matchStart), was, base + strstart, MaxDist(ps),
          text);
      RunningSizes(Reach());
      LazyFrom();
    }

    lemma LazyRuns()
      requires Lazy()
      ensures Running(Reach()) && Reach() == base + strstart - if matchAvailable then 1 else 0
    {
      hide Running, Pending;
    }

    lemma ReachIs()
      ensures Reach() == base + strstart - if matchAvailable then 1 else 0
    {
    }

    lemma LazyFrom()
      requires Running(Reach()) && (matchAvailable ==> 0 < strstart)
      requires Pending(matchAvailable, matchLength, Less32(strstart - 1, matchStart), text, base + strstart,
        MaxDist(ps))
      ensures Lazy()
    {
      hide Running, Pending, Less32;
    }

    /** At the end of the input no match can be put off. */
    lemma NothingPutOff()
      requires Lazy() && lookahead == 0
      ensures matchLength < MIN_MATCH && base + strstart == |text| && 0 <= base
    {
      hide Stream, Buffered, Spelled, Less32, Repeats;
      StreamSizes(State(), ps);
      if matchLength >= MIN_MATCH {
        RepeatsFits(text, base + strstart - 1, Less32(strstart - 1, matchStart), matchLength);
      }
    }

    /** The byte put off goes out as a literal when the input ends; no match can be pending then. */
    method EmitLast()
      requires Lazy() && lookahead == 0 && symNext < symEnd && Told(Now())
      modifies this`matchAvailable, this`symNext, this`block, this`turns, symBuf
      ensures Lazy() && !matchAvailable && Told(Now()) && old(turns) <= turns
    {
      hide *;
      NothingPutOff();
      LazyParts();
      ToldIs(Now());
      LazyMark();
      ghost var m, symbols, before := Now(), sent + block, turns;
      ghost var t := Ended(base + strstart, matchAvailable, ByteAt(text, base + strstart - 1));
      EndFair(t, ps, config, text);
      turns := turns + [t];
      EmitRest();
      assert sent + block == symbols + Emits(t);
      LazyMark();
      MeetsShort(m, Before(t));
      MeetsShort(After(t), Now());
      TellOn(symbols, before, t, m, Now());
    }

    method EmitRest()
      requires Lazy() && lookahead == 0 && symNext < symEnd
      modifies this`matchAvailable, this`symNext, this`block, symBuf
      ensures Lazy() && !matchAvailable
      ensures block == old(block) + if old(matchAvailable) then [Literal(ByteAt(text, base + strstart - 1))] else []
    {
      hide *;
      NothingPutOff();
      LazyParts();
      ArraysParts();
      if matchAvailable { TallyLast(); }
      matchAvailable := false;
      RunningAgain(base + strstart);
      ReachIs();
      LastPending();
      LazyFrom();
    }

    lemma LastPending()
      requires matchLength < MIN_MATCH && 2 <= matchLength <= MAX_MATCH
      ensures Pending(false, matchLength, Less32(strstart - 1, matchStart), text, base + strstart, MaxDist(ps))
    {
    }

    method TallyLast()
      requires Arrays() && Stream(State(), ps) && Buffered() && symNext < symEnd && 0 < strstart
        && Spelled(base + strstart - 1)
      modifies this`symNext, this`block, symBuf
      ensures Buffered() && Spelled(base + strstart)
      ensures block == old(block) + [Literal(ByteAt(text, base + strstart - 1))]
    {
      hide Stream, Windowed, HashAt, Tallied, Holds, Pow2;
      ghost var was, b := State(), block;
      StreamSizes(was, ps);
      StreamParts(was, ps);
      TextByte(was.window, was.head, was.prev, was.owner, was.front, text, base, strstart + lookahead, ps,
          strstart - 1);
      var _ := TallyLit(window[strstart - 1]);
      SpelledLiteral(b, base + strstart - 1);
    }

    method LazyFlush() returns (outputFull: bool)
      requires Lazy() && !matchAvailable && Told(Now()) && symNext == symEnd
      modifies this`symNext, this`block, this`sent, this`blocks, this`blockStart
      ensures Lazy() && old(sent) <= sent && symNext == 0 < symEnd && Told(Now())
      ensures old(blocks) <= blocks && FullFrom(|old(blocks)|, |blocks|)
    {
      hide *;
      LazyRuns();
      LazyParts();
      BlockIsFull();
      ghost var was := blocks;
      RunningSizes(Reach());
      ghost var m, symbols := Now(), sent + block;
      ToldIs(m);
      LazyMark();
      outputFull := FlushBlock();
      LazyMark();
      MeetsItself(m);
      assert sent + [] == sent;
      ToldStill(m, symbols, text, Now());
      FullMore(was);
      ReachIs();
      LazyFrom();
    }

    method LazyLastBlock(flush: Flush) returns (status: Status)
      requires Lazy() && !matchAvailable && lookahead == 0 && Told(Now())
      modifies this`insert, this`symNext, this`block, this`sent, this`blocks, this`blockStart
      ensures Lazy() && old(sent) <= sent && block == [] && symNext == 0 < symEnd && Expand(sent) == text && Told(Now())
      ensures old(blocks) <= blocks && |blocks| <= |old(blocks)| + 1
    {
      hide *;
      LazyRuns();
      LazyParts();
      RunningSizes(Reach());
      ghost var m, symbols := Now(), sent + block;
      ToldIs(m);
      LazyMark();
      status := LastBlock(flush);
      LazyMark();
      MeetsItself(m);
      assert sent + [] == sent;
      ToldStill(m, symbols, text, Now());
      ReachIs();
      LazyFrom();
    }

    /**
     deflate_slow. The symbols always stand for the text up to strstart, less the byte put off; when it reports the
     end of a block or of the stream, all the input is spelled out in what was sent. Every turn of its loop is told: the
     match put off is sent if the one searched for is no longer, else the byte.
     */
    method DeflateSlow(flush: Flush) returns (status: Status)
      requires Lazy() && symNext < symEnd && Told(Now())
      modifies this, window, head, prev, symBuf
      ensures Lazy() && symNext < symEnd && Told(Now()) && old(turns) <= turns
      ensures old(blocks) <= blocks && (FullFrom(|old(blocks)|, |blocks|) ||
                (!flush.NoFlush? && nextIn == [] && FullFrom(|old(blocks)|, |blocks| - 1)))
      ensures text + nextIn == old(text) + old(nextIn) && old(sent) <= sent
      ensures !status.NeedMore? ==> nextIn == [] && Expand(sent) == text && block == []
    {
      hide *;
      MatchSizes();
      ghost var total := |text + nextIn|;
      NoneFull();
      while true
        invariant Lazy() && symNext < symEnd && text + nextIn == old(text) + old(nextIn) && old(sent) <= sent
        invariant Told(Now()) && old(turns) <= turns
        invariant old(blocks) <= blocks && FullFrom(|old(blocks)|, |blocks|)
        decreases total - (base + strstart)
      {
        LazyLookAhead();
        if lookahead < MIN_LOOKAHEAD && flush.NoFlush? { return NeedMore; }
        if lookahead == 0 { break; }
        ghost var before := blocks;
        FullMeans(|old(blocks)|, |blocks|);
        var wait := SlowTurn();
        FullOn(|old(blocks)|, before);
        if wait { return NeedMore; }
      }
      EmitLast();
      ghost var was := blocks;
      FullMeans(|old(blocks)|, |blocks|);
      status := LazyLastBlock(flush);
      FullButLast(|old(blocks)|, was);
    }

    // ----- from one call to the next -------------------------------------------------------------------------------

    /** lm_init. */
    constructor (p: Params, c: Config, bufsize: nat)
      requires Sane(p) && c.maxChain >= 4 && bufsize >= 2
      ensures Greedy() && Lazy() && symNext == 0 < symEnd && text == [] && nextIn == [] && sent == [] && block == []
      ensures turns == [] && blocks == [] && Told(Now()) && Told(NowGreedy())
      ensures ps == p && config == c && fresh(window) && fresh(head) && fresh(prev) && fresh(symBuf)
    {
      ps, config := p, c;
      window, prev, head := new int[2 * p.wsize], new int[p.wsize], new int[Pow2(p.bits)];
      symBuf, symEnd := new int[3 * bufsize], 3 * (bufsize - 1);
      strstart, lookahead, insert, insH, matchStart, blockStart, highWater, symNext := 0, 0, 0, 0, 0, 0, 0, 0;
      matchLength, prevLength, prevMatch, matchAvailable := MIN_MATCH - 1, MIN_MATCH - 1, 0, false;
      nextIn, sent := [], [];
      text, base, front, block, turns, blocks := [], 0, 0, [], [], [];
      owner := seq(p.wsize, i => -1);
      new;
      Clear(window);
      Clear(head);
      hide *;
      Starts();
      StartsTold();
    }

    lemma StartsTold()
      requires sent == block == [] && turns == [] && base == strstart == 0 && !matchAvailable
        && matchLength == MIN_MATCH - 1
      ensures Told(Now()) && Told(NowGreedy())
    {
    }

    lemma Starts()
      requires Arrays() && symNext == 0 < symEnd && symEnd % 3 == 0 && symEnd + 3 <= symBuf.Length
        && block == sent == [] && text == nextIn == []
      requires strstart == lookahead == insert == matchStart == blockStart == highWater == base == front == 0
      requires matchLength == prevLength == MIN_MATCH - 1 && !matchAvailable && |owner| == ps.wsize
      requires forall q {:trigger owner[q]} :: 0 <= q < |owner| ==> owner[q] == -1
      requires (forall i {:trigger window[i]} :: 0 <= i < window.Length ==>
        window[i] == NIL) && forall i {:trigger head[i]} :: 0 <= i < head.Length ==> head[i] == NIL
      ensures Greedy() && Lazy()
    {
      hide Stream, Tallied, Pow2, Windowed, Repeats, Less32;
      StreamStarts(State(), ps);
      NothingTallied(MaxDist(ps));
      assert sent + block == [];
    }

    method Clear(a: array<int>)
      modifies a
      ensures forall i {:trigger a[i]} :: 0 <= i < a.Length ==> a[i] == NIL
    {
      for k := 0 to a.Length
        invariant forall i {:trigger a[i]} :: 0 <= i < k ==> a[i] == NIL
      {
        a[k] := NIL;
      }
    }

    /** The caller has more input. */
    method Provide(more: seq<int>)
      requires Bytes(more)
      modifies this`nextIn
      ensures nextIn == old(nextIn) + more
      ensures old(Greedy()) ==> Greedy()
      ensures old(Lazy()) ==> Lazy()
      ensures old(Told(Now())) ==> Told(Now())
      ensures old(Told(NowGreedy())) ==> Told(NowGreedy())
    {
      hide Stream, Buffered, Spelled, Pending, Pow2, Sane;
      nextIn := nextIn + more;
    }
  }
}
