/**
 The output side of inflate: the circular window kept between calls, the copying of matches from it and from
 the output, one at a time and in the fast decoder (dep/zlib/inflate.c:399-447, 1170-1221; dep/zlib/inffast.c:169-264).
 Codes are already decoded here: the input is a sequence of symbols.
 */
module InflateWindow {
  import opened LzWindow

  /** Where the byte k back from the write position is. */
  function At(wnext: int, wsize: int, k: int): int {
    if k <= wnext then wnext - k else wsize + wnext - k
  }

  function Min(a: int, b: int): int {
    if a < b then a else b
  }

  /** The window holds the last bytes of the history in circular order; until it is full it is filled from 0. */
  ghost predicate Keeps(window: seq<int>, wsize: int, wnext: int, whave: int, size: int, history: seq<int>) {
    && 0 < size == |window| && (wsize == 0 || wsize == size)
         && (wsize == 0 ==> history == [] && whave == 0 && wnext == 0)
    && 0 <= wnext < size && whave == Min(|history|, size) && (whave < size ==> wnext == whave)
    && forall k :: 1 <= k <= whave ==> ByteKept(window, wnext, size, history, k)
  }

  ghost predicate ByteKept(window: seq<int>, wnext: int, size: int, history: seq<int>, k: int) {
    0 <= At(wnext, size, k) < |window| && 1 <= k <= |history| && window[At(wnext, size, k)] == history[|history| - k]
  }

  lemma KeepsSizes(window: seq<int>, wsize: int, wnext: int, whave: int, size: int, history: seq<int>)
    requires Keeps(window, wsize, wnext, whave, size, history)
    ensures 0 < size == |window| && (wsize == 0 || wsize == size) && 0 <= wnext < size && 0 <= whave <= size
      && whave <= |history|
    ensures (whave < size ==> wnext == whave) && (whave < size ==> whave == |history|) && (whave > 0 ==> wsize == size)
  {
  }

  lemma KeepsByte(window: seq<int>, wsize: int, wnext: int, whave: int, size: int, history: seq<int>, k: int)
    requires Keeps(window, wsize, wnext, whave, size, history) && 1 <= k <= whave
    ensures 0 <= At(wnext, size, k) < |window| && k <= |history| && window[At(wnext, size, k)] == history[|history| - k]
  {
    assert ByteKept(window, wnext, size, history, k);
  }

  /** Everything kept is from the new bytes when there are at least size of them. */
  lemma KeepsOnlyNew(window': seq<int>, size: int, history: seq<int>, new_: seq<int>)
    requires 0 < size == |window'| && |new_| >= size
    requires forall i {:trigger window'[i]} :: 0 <= i < size ==> window'[i] == new_[|new_| - size + i]
    ensures Keeps(window', size, 0, size, size, history + new_)
  {
    var h := history + new_;
    forall k | 1 <= k <= size ensures ByteKept(window', 0, size, h, k) {
      assert window'[size - k] == new_[|new_| - k];
    }
  }

  /** Where new bytes go when there are fewer. */
  ghost predicate Wrote(window: seq<int>, window': seq<int>, wnext: int, size: int, new_: seq<int>) {
    |window| == |window'| == size && |new_| < size && 0 <= wnext < size &&
    forall i {:trigger window'[i]} :: 0 <= i < size ==>
      window'[i] == if wnext <= i < wnext + |new_| then new_[i - wnext] else if i < wnext + |new_| - size
        then new_[i + size - wnext] else window[i]
  }

  lemma KeepsMore(window: seq<int>, wsize: int, wnext: int, whave: int, size: int, history: seq<int>, window': seq<int>,
                  new_: seq<int>)
    requires Keeps(window, wsize, wnext, whave, size, history) && Wrote(window, window', wnext, size, new_)
    ensures var wnext' := if wnext + |new_| >= size then wnext + |new_| - size else wnext + |new_|;
      Keeps(window', size, wnext', Min(|history| + |new_|, size), size, history + new_)
  {
    var n := |new_|;
    var wnext' := if wnext + n >= size then wnext + n - size else wnext + n;
    var h := history + new_;
    forall k | 1 <= k <= Min(|h|, size) ensures ByteKept(window', wnext', size, h, k) {
      if k <= n {
        NewByte(window, window', wnext, size, new_, k);
      } else {
        KeepsByte(window, wsize, wnext, whave, size, history, k - n);
        OldByte(window, window', wnext, size, new_, k);
      }
    }
  }

  lemma NewByte(window: seq<int>, window': seq<int>, wnext: int, size: int, new_: seq<int>, k: int)
    requires Wrote(window, window', wnext, size, new_) && 1 <= k <= |new_|
    ensures var n := |new_|; var wnext' := if wnext + n >= size then wnext + n - size else wnext + n;
      0 <= At(wnext', size, k) < size && window'[At(wnext', size, k)] == new_[n - k]
  {
  }

  lemma OldByte(window: seq<int>, window': seq<int>, wnext: int, size: int, new_: seq<int>, k: int)
    requires Wrote(window, window', wnext, size, new_) && |new_| < k <= size
    ensures var n := |new_|; var wnext' := if wnext + n >= size then wnext + n - size else wnext + n;
      0 <= At(wnext, size, k - n) < size && At(wnext', size, k) == At(wnext, size, k - n)
        && window'[At(wnext', size, k)] == window[At(wnext, size, k - n)]
  {
  }

  // ----- repeats in the output ---------------------------------------------------------------------------------

  lemma RepeatsMore(text: seq<int>, n: int, dist: int, a: int, text': seq<int>, b: int)
    requires Repeats(text, n, dist, a) && |text| == n + a && text <= text' && Repeats(text', n + a, dist, b)
    ensures Repeats(text', n, dist, a + b)
  {
  }

  lemma RepeatsNothing(text: seq<int>, dist: int)
    requires 0 < dist <= |text|
    ensures Repeats(text, |text|, dist, 0)
  {
  }

  /** Bytes that repeat what is dist back are the naive copy. */
  lemma RepeatsCopied(text: seq<int>, text': seq<int>, dist: int, len: nat)
    requires text <= text' && |text'| == |text| + len && Repeats(text', |text|, dist, len)
    ensures text' == Copied(text, dist, len)
  {
    CopyRepeats(text', |text|, dist, len);
    assert text'[..|text|] == text && text'[..|text| + len] == text';
  }

  lemma {:induction false} CopiedTwice(text: seq<int>, dist: int, a: nat, b: nat)
    requires 0 < dist <= |text|
    ensures Copied(Copied(text, dist, a), dist, b) == Copied(text, dist, a + b)
    decreases a
  {
    if a > 0 { CopiedTwice(text + [text[|text| - dist]], dist, a - 1, b); }
  }

  lemma {:induction false} LegalWider(syms: seq<Symbol>, m: int, n: int)
    requires Legal(syms, m) && m <= n
    ensures Legal(syms, n)
    decreases |syms|
  {
    if syms != [] { LegalWider(syms[..|syms| - 1], m, n); }
  }

  /** n bytes copied out of the window, none of them across its end or past the write position. */
  lemma FromWindow(window: seq<int>, wsize: int, wnext: int, whave: int, size: int, history: seq<int>, out: seq<int>,
                   put: int,
                   dist: int, from: int, n: int)
    requires Keeps(window, wsize, wnext, whave, size, history)
    requires 0 <= put && 0 <= n && put + n <= |out| && n <= dist - put <= whave
    requires if dist - put <= wnext then from == wnext - (dist - put)
      else n <= dist - put - wnext && from == size + wnext - (dist - put)
    requires 0 <= from && from + n <= |window| && forall i {:trigger out[i]} :: put <= i < put + n ==>
      out[i] == window[from + (i - put)]
    ensures 0 < dist || n == 0
    ensures n > 0 ==> Repeats(history + out[..put + n], |history| + put, dist, n)
  {
    hide Keeps;
    KeepsSizes(window, wsize, wnext, whave, size, history);
    var t := history + out[..put + n];
    forall i {:trigger t[i]} | |history| + put <= i < |history| + put + n ensures 0 <= i - dist && t[i] == t[i - dist] {
      var j := i - |history| - put;
      KeepsByte(window, wsize, wnext, whave, size, history, dist - put - j);
      assert t[i] == out[put + j];
    }
  }

  /** n bytes copied within the output. */
  lemma FromOutput(history: seq<int>, out: seq<int>, put: int, dist: int, n: int)
    requires 0 < dist <= put && 0 <= n && put + n <= |out|
    requires forall i {:trigger out[i]} :: put <= i < put + n ==> out[i] == out[i - dist]
    ensures Repeats(history + out[..put + n], |history| + put, dist, n)
  {
    var t := history + out[..put + n];
    forall i {:trigger t[i]} | |history| + put <= i < |history| + put + n ensures t[i] == t[i - dist] {
      var j := i - |history|;
      assert t[i] == out[j] && t[i - dist] == out[j - dist];
    }
  }

  /** Two stretches that repeat what is dist back, one behind the other. */
  lemma RepeatsOn(history: seq<int>, out: seq<int>, out': seq<int>, at: int, dist: int, mid: int, n: int, end: int)
    requires 0 <= at <= mid <= end == mid + n <= |out| == |out'| && out'[..mid] == out[..mid]
    requires Repeats(history + out[..mid], |history| + at, dist, mid - at)
    requires Repeats(history + out'[..mid + n], |history| + mid, dist, n)
    ensures Repeats(history + out'[..end], |history| + at, dist, end - at)
  {
    var text, text' := history + out[..mid], history + out'[..end];
    assert out[..mid] <= out'[..end];
    RepeatsMore(text, |history| + at, dist, mid - at, text', n);
  }

  /** What one more symbol does to the text. */
  function Applied(text: seq<int>, sym: Symbol): seq<int> {
    match sym
    case Literal(c) => text + [c]
    case Match(dist, len) => if 0 < dist <= |text| && len >= 0 then Copied(text, dist, len) else text
  }

  lemma ExpandOne(done: seq<Symbol>, sym: Symbol)
    ensures Expand(done + [sym]) == Applied(Expand(done), sym)
  {
    assert (done + [sym])[..|done|] == done;
  }

  // ----- how far the symbols are decoded -------------------------------------------------------------------------

  datatype Mode = Len | Lit | InMatch | Bad

  /** A symbol as the decoding tables give it. */
  ghost predicate Coded(sym: Symbol) {
    sym.Match? ==> 0 < sym.dist && MIN_MATCH <= sym.len <= MAX_MATCH
  }

  /** The last symbol taken is a match this far back, and the text has everything before it. */
  ghost predicate LastIsMatch(done: seq<Symbol>, dist: int, text: seq<int>) {
    done != [] && done[|done| - 1].Match? && done[|done| - 1].dist == dist && Expand(done[..|done| - 1]) <= text
  }

  /** What the text put out lacks of the symbols taken, state by state. */
  ghost predicate Decoded(mode: Mode, length: int, offset: int, text: seq<int>, done: seq<Symbol>, size: int) {
    match mode
    case Len => text == Expand(done)
    case Lit => text + [length] == Expand(done)
    case InMatch =>
      && 0 < length && 0 < offset && LastIsMatch(done, offset, text)
      && (if offset <= |text| then Copied(text, offset, length) == Expand(done) else text == Expand(done))
    case Bad => LastIsMatch(done, offset, text) && (offset > size || offset > |text|)
  }

  lemma TakesLiteral(text: seq<int>, done: seq<Symbol>, c: int, offset: int, size: int)
    requires text == Expand(done)
    ensures Decoded(Lit, c, offset, text, done + [Literal(c)], size)
    ensures Decoded(Len, c, offset, text + [c], done + [Literal(c)], size)
  {
    ExpandOne(done, Literal(c));
  }

  lemma TakesMatch(text: seq<int>, done: seq<Symbol>, dist: int, len: int, size: int)
    requires text == Expand(done) && 0 < dist && 0 < len
    ensures Decoded(InMatch, len, dist, text, done + [Match(dist, len)], size)
  {
    ExpandOne(done, Match(dist, len));
    assert (done + [Match(dist, len)])[..|done|] == done;
  }

  /** Part of a match, or the rest of it, is copied. */
  lemma Copies(text: seq<int>, done: seq<Symbol>, dist: int, len: int, size: int, text': seq<int>, n: nat, mode: Mode)
    requires Decoded(InMatch, len, dist, text, done, size) && n <= len && mode == (if n == len then Len else InMatch)
    requires text <= text' && |text'| == |text| + n && Repeats(text', |text|, dist, n)
    ensures Decoded(mode, len - n, dist, text', done, size)
  {
    hide Copied, Repeats, Legal;
    RepeatsFits(text', |text|, dist, n);
    RepeatsCopied(text, text', dist, n);
    CopiedTwice(text, dist, n, len - n);
    assert Expand(done[..|done| - 1]) <= text';
  }

  lemma Refuses(text: seq<int>, done: seq<Symbol>, dist: int, len: int, size: int)
    requires Decoded(InMatch, len, dist, text, done, size) && (dist > size || dist > |text|)
    ensures Decoded(Bad, len, dist, text, done, size)
  {
  }

  /** No legal stream is refused. */
  lemma LegalNotBad(mode: Mode, length: int, offset: int, text: seq<int>, done: seq<Symbol>, size: int)
    requires Decoded(mode, length, offset, text, done, size) && Legal(done, size)
    ensures mode != Bad
  {
  }

  lemma {:induction false} ExpandGrows(syms: seq<Symbol>, n: nat)
    requires n <= |syms|
    ensures Expand(syms[..n]) <= Expand(syms)
    decreases |syms|
  {
    if n == |syms| {
      assert syms[..n] == syms;
    } else {
      var rest := syms[..|syms| - 1];
      ExpandGrows(rest, n);
      assert rest[..n] == syms[..n] && syms == rest + [syms[|syms| - 1]];
      ExpandOne(rest, syms[|syms| - 1]);
      AppliedGrows(Expand(rest), syms[|syms| - 1]);
    }
  }

  lemma AppliedGrows(text: seq<int>, sym: Symbol)
    ensures text <= Applied(text, sym)
  {
    if sym.Match? && 0 < sym.dist <= |text| && sym.len >= 0 { CopiedGrows(text, sym.dist, sym.len); }
  }

  lemma {:induction false} CopiedGrows(text: seq<int>, dist: int, len: nat)
    requires 0 < dist <= |text|
    ensures text <= Copied(text, dist, len)
    decreases len
  {
    if len > 0 { CopiedGrows(text + [text[|text| - dist]], dist, len - 1); }
  }

  lemma {:induction false} LegalPrefix(syms: seq<Symbol>, n: nat, maxDist: int)
    requires Legal(syms, maxDist) && n <= |syms|
    ensures Legal(syms[..n], maxDist)
    decreases |syms|
  {
    if n == |syms| {
      assert syms[..n] == syms;
    } else {
      LegalPrefix(syms[..|syms| - 1], n, maxDist);
      assert syms[..|syms| - 1][..n] == syms[..n];
    }
  }

  lemma LegalCoded(syms: seq<Symbol>, i: nat, maxDist: int)
    requires Legal(syms, maxDist) && i < |syms|
    ensures Coded(syms[i])
  {
    LegalPrefix(syms, i + 1, maxDist);
    assert syms[..i + 1][i] == syms[i];
  }

  /** What is put out is never more than the symbols stand for. */
  lemma DecodedWithin(mode: Mode, length: int, offset: int, text: seq<int>, done: seq<Symbol>, size: int)
    requires Decoded(mode, length, offset, text, done, size) && mode != Bad
    ensures text <= Expand(done)
  {
    if mode == InMatch && offset <= |text| { CopiedGrows(text, offset, length); }
  }

  /** What deflate sends, inflate with a window no smaller takes: every symbol is coded, and the stream is legal. */
  lemma SentIsLegal(sent: seq<Symbol>, text: seq<int>, maxDist: int, size: int)
    requires Tallied(sent, text, |text|, maxDist) && maxDist <= size
    ensures Legal(sent, size) && Expand(sent) == text
  {
    LegalWider(sent, maxDist, size);
    assert text[..|text|] == text;
  }
}
