/**
 Inflate from decoded symbols to output, over any number of calls with output buffers of any size
 (dep/zlib/inflate.c:399-447, 1062-1066, 1170-1221, 1279-1287; dep/zlib/inffast.c:169-264).
 */
module Inflate {
  import opened LzWindow
  import opened InflateWindow

  class Inflater {
    const size: int
    const window: array<int>
    var wsize: int
    var wnext: int
    var whave: int
    var mode: Mode
    var length: int
    var offset: int
    var out: array<int>
    var put: int
    ghost var history: seq<int>
    ghost var done: seq<Symbol>

    ghost predicate Windowed()
      reads this`wsize, this`wnext, this`whave, this`history, window
    {
      Keeps(window[..], wsize, wnext, whave, size, history)
    }

    /** All that was put out, in this call and before. */
    ghost function Text(): seq<int>
      requires 0 <= put <= out.Length
      reads this`history, this`out, this`put, out
    {
      history + out[..put]
    }

    /** Copies n bytes to the output, from the window or from further up in the output itself. */
    method CopyBytes(src: array<int>, from: int, n: int)
      requires (src == out || src == window) && window != out && 0 <= from && 0 <= n && 0 <= put
        && put + n <= out.Length
      requires if src == out then from < put else from + n <= window.Length
      modifies this`put, out
      ensures put == old(put) + n && forall i {:trigger out[i]} :: 0 <= i < out.Length && !(old(put) <= i < put) ==>
        out[i] == old(out[i])
      ensures src == window ==> forall i {:trigger out[i]} :: old(put) <= i < put ==>
        out[i] == window[from + (i - old(put))]
      ensures src == out ==> forall i {:trigger out[i]} :: old(put) <= i < put ==> out[i] == out[i - (old(put) - from)]
    {
      for k := 0 to n
        invariant put == old(put) + k && forall i {:trigger out[i]} :: 0 <= i < out.Length && !(old(put) <= i < put) ==>
          out[i] == old(out[i])
        invariant src == window ==> forall i {:trigger out[i]} :: old(put) <= i < put ==>
          out[i] == window[from + (i - old(put))]
        invariant src == out ==> forall i {:trigger out[i]} :: old(put) <= i < put ==>
          out[i] == out[i - (old(put) - from)]
      {
        out[put] := src[from + k];
        put := put + 1;
      }
    }

    /** The same with three bytes to a round. */
    method CopyThrees(src: array<int>, from0: int, len0: int)
      requires (src == out || src == window) && window != out && 0 <= from0 && 0 <= len0 && 0 <= put
        && put + len0 <= out.Length
      requires if src == out then from0 < put else from0 + len0 <= window.Length
      modifies this`put, out
      ensures put == old(put) + len0 && forall i {:trigger out[i]} :: 0 <= i < out.Length && !(old(put) <= i < put) ==>
        out[i] == old(out[i])
      ensures src == window ==> forall i {:trigger out[i]} :: old(put) <= i < put ==>
        out[i] == window[from0 + (i - old(put))]
      ensures src == out ==> forall i {:trigger out[i]} :: old(put) <= i < put ==> out[i] == out[i - (old(put) - from0)]
    {
      var from, len := from0, len0;
      while len > 2
        invariant 0 <= len && from - from0 == put - old(put) == len0 - len
        invariant forall i {:trigger out[i]} :: 0 <= i < out.Length && !(old(put) <= i < put) ==> out[i] == old(out[i])
        invariant src == window ==> forall i {:trigger out[i]} :: old(put) <= i < put ==>
          out[i] == window[from0 + (i - old(put))]
        invariant src == out ==> forall i {:trigger out[i]} :: old(put) <= i < put ==>
          out[i] == out[i - (old(put) - from0)]
      {
        CopyBytes(src, from, 3);
        from := from + 3;
        len := len - 3;
      }
      if len > 0 {
        CopyBytes(src, from, 1);
        if len > 1 { CopyBytes(src, from + 1, 1); }
      }
    }

    /** n bytes were put out, each the same as the one dist back; nothing before them changed. */
    twostate predicate Repeated(dist: int, n: int)
      requires 0 <= old(put) <= old(out.Length) && 0 <= put <= out.Length
      reads this`history, this`out, this`put, out
    {
      && out == old(out) && history == old(history) && put == old(put) + n && out[..old(put)] == old(out[..put])
      && Repeats(Text(), |history| + old(put), dist, n)
    }

    /** Copies n bytes of the match, from the window or from the output. */
    method CopyPart(src: array<int>, from: int, n: int)
      requires Windowed() && window != out && 0 <= put && 0 < n && put + n <= out.Length && 0 < offset
      requires if src == out then from == put - offset >= 0 else
        src == window && n <= offset - put <= whave &&
        (if offset - put <= wnext then from == wnext - (offset - put)
          else n <= offset - put - wnext && from == size + wnext - (offset - put))
      modifies this`put, out
      ensures 0 <= put <= out.Length && Repeated(offset, n)
    {
      hide Keeps, Repeats;
      KeepsSizes(window[..], wsize, wnext, whave, size, history);
      ghost var at, was := put, out[..];
      CopyBytes(src, from, n);
      if src == window {
        FromWindow(window[..], wsize, wnext, whave, size, history, out[..], at, offset, from, n);
      } else {
        FromOutput(history, out[..], at, offset, n);
      }
      assert out[..][..put] == out[..put] && out[..at] == was[..at];
    }

    /** One turn of the MATCH state: what is at hand is copied, or the distance is refused. */
    method MatchStep()
      requires Windowed() && window != out && 0 <= put < out.Length && mode == InMatch && 0 < length && 0 < offset
      modifies this`put, this`length, this`mode, out
      ensures mode == Bad <==> offset > old(put) + whave
      ensures mode == Bad ==> put == old(put) && length == old(length) && out[..] == old(out[..])
      ensures mode != Bad ==>
        0 <= length < old(length) && put <= out.Length && mode == if length == 0 then Len else InMatch
      ensures mode != Bad ==> 0 <= put <= out.Length && Repeated(offset, old(length) - length)
    {
      hide Keeps, Repeats;
      KeepsSizes(window[..], wsize, wnext, whave, size, history);
      var left := out.Length - put;
      var copy := put;
      var src, from := window, 0;
      if offset > copy {
        copy := offset - copy;
        if copy > whave {
          mode := Bad;
          return;
        }
        if copy > wnext {
          copy := copy - wnext;
          from := wsize - copy;
        } else {
          from := wnext - copy;
        }
        if copy > length { copy := length; }
      } else {
        src, from := out, put - offset;
        copy := length;
      }
      if copy > left { copy := left; }
      length := length - copy;
      CopyPart(src, from, copy);
      mode := if length == 0 then Len else InMatch;
    }

    /** The rest of a match, from the output. */
    lemma TextIs()
      requires 0 <= put <= out.Length
      ensures Text() == history + out[..put]
    {
    }

    lemma WindowIs()
      requires Windowed()
      ensures Keeps(window[..], wsize, wnext, whave, size, history) && 0 <= wnext && 0 <= whave
      ensures whave <= size <= window.Length && wnext < size && window.Length == size
    {
      KeepsSizes(window[..], wsize, wnext, whave, size, history);
    }

    method RestFromOutput(dist: int, ghost at: int, len: int)
      requires window != out && 0 <= at && 0 < dist <= put && 0 <= len && put + len <= out.Length && at <= put
      requires Repeats(Text(), |history| + at, dist, put - at)
      modifies this`put, out
      ensures put == old(put) + len && out[..old(put)] == old(out[..put])
        && Repeats(Text(), |history| + at, dist, put - at)
    {
      hide *;
      ghost var was, here := out[..], put;
      TextIs();
      CopyThrees(out, put - dist, len);
      FromOutput(history, out[..], here, dist, len);
      assert out[..here] == was[..here] && out[..][..put] == out[..put];
      RepeatsOn(history, was, out[..], at, dist, here, len, put);
      TextIs();
    }

    /** A match in the fast decoder, which has room for the longest: all of it at once. */
    method FastMatch(dist: int, len: int) returns (ok: bool)
      requires Windowed() && window != out && 0 <= put && put + MAX_MATCH <= out.Length && 0 < dist
        && MIN_MATCH <= len <= MAX_MATCH
      modifies this`put, out
      ensures !ok <==> dist > old(put) + whave
      ensures !ok ==> put == old(put) && out[..] == old(out[..])
      ensures ok ==> 0 <= put <= out.Length && Repeated(dist, len)
    {
      hide Keeps, Repeats;
      KeepsSizes(window[..], wsize, wnext, whave, size, history);
      ghost var at, was := put, out[..];
      ok := true;
      var op := put;
      if dist > op {
        op := dist - op;
        if op > whave { return false; }
        if wnext == 0 {
          FastFromWindow(wsize - op, op, dist, len);
        } else if wnext < op {
          FastWrapped(op, dist, len);
        } else {
          FastFromWindow(wnext - op, op, dist, len);
        }
      } else {
        CopyThrees(out, put - dist, len);
        FromOutput(history, out[..], at, dist, len);
        assert out[..][..put] == out[..put] && out[..at] == was[..at];
      }
    }

    /** What is left of a match when the op bytes of the window from `from` on come next, then the output. */
    method RestFromWindow(from: int, op: int, dist: int, ghost at: int, len: int)
      requires Windowed() && window != out && 0 <= at <= put && put + len <= out.Length && 0 < len
        && 0 < op == dist - put <= whave
      requires if op <= wnext then from == wnext - op else wnext == 0 && from == size - op
      requires Repeats(Text(), |history| + at, dist, put - at)
      modifies this`put, out
      ensures put == old(put) + len && out[..old(put)] == old(out[..put])
        && Repeats(Text(), |history| + at, dist, put - at)
    {
      hide *;
      TextIs();
      WindowIs();
      ghost var here, was := put, out[..];
      var n := if op < len then op else len;
      if op < len { CopyBytes(window, from, op); } else { CopyThrees(window, from, len); }
      FromWindow(window[..], wsize, wnext, whave, size, history, out[..], here, dist, from, n);
      assert out[..][..put] == out[..put] && out[..here] == was[..here];
      RepeatsOn(history, was, out[..], at, dist, here, n, put);
      TextIs();
      if op < len {
        ghost var mid := out[..put];
        RestFromOutput(dist, at, len - op);
        assert out[..here] == mid[..here];
      }
    }

    /** A match that starts in the window. */
    method FastFromWindow(from: int, op: int, dist: int, len: int)
      requires Windowed() && window != out && 0 <= put && put + len <= out.Length && 0 < len
        && 0 < op == dist - put <= whave
      requires if op <= wnext then from == wnext - op else wnext == 0 && from == size - op
      modifies this`put, out
      ensures 0 <= put <= out.Length && Repeated(dist, len)
    {
      hide Keeps, Repeats;
      KeepsSizes(window[..], wsize, wnext, whave, size, history);
      RepeatsNothing(Text(), dist);
      RestFromWindow(from, op, dist, put, len);
    }

    /** A match that starts towards the end of the window and may go round to its start. */
    method FastWrapped(op0: int, dist: int, len0: int)
      requires Windowed() && window != out && 0 <= put && put + len0 <= out.Length && 0 < len0
        && 0 < wnext < op0 == dist - put <= whave
      modifies this`put, out
      ensures 0 <= put <= out.Length && Repeated(dist, len0)
    {
      hide Keeps, Repeats;
      KeepsSizes(window[..], wsize, wnext, whave, size, history);
      ghost var at, was := put, out[..];
      var from := wsize + wnext - op0;
      var op, len := op0 - wnext, len0;
      ghost var n := if op < len then op else len;
      if op < len { CopyBytes(window, from, op); } else { CopyThrees(window, from, len); }
      FromWindow(window[..], wsize, wnext, whave, size, history, out[..], at, dist, from, n);
      assert out[..][..put] == out[..put] && out[..at] == was[..at];
      if op < len {
        ghost var mid := out[..put];
        len := len - op;
        RestFromWindow(0, wnext, dist, at, len);
        assert out[..at] == mid[..at];
      }
    }

    // ----- the window between calls ----------------------------------------------------------------------------------

    /** Puts the last copy bytes before end into the window. */
    method UpdateWindow(src: array<int>, end: int, copy: int)
      requires Windowed() && window != src && 0 <= copy <= end <= src.Length
      modifies this`wsize, this`wnext, this`whave, this`history, window
      ensures Windowed() && history == old(history) + src[end - copy..end]
    {
      hide Keeps, Wrote;
      ghost var was, was_ := window[..], wsize;
      ghost var new_ := src[end - copy..end];
      KeepsSizes(was, wsize, wnext, whave, size, history);
      if wsize == 0 {
        wsize := window.Length;
        wnext := 0;
        whave := 0;
      }
      if copy >= wsize {
        Fill(0, src, end - wsize, wsize);
        wnext := 0;
        whave := wsize;
        KeepsOnlyNew(window[..], size, history, new_);
      } else {
        FillAround(src, end, copy);
        KeepsMore(was, was_, old(wnext), old(whave), size, history, window[..], new_);
      }
      history := history + new_;
    }

    /** Fewer bytes than the window holds: they go behind those there, and round to the start. */
    method FillAround(src: array<int>, end: int, copy0: int)
      requires window != src && 0 <= copy0 <= end <= src.Length && copy0 < wsize == window.Length && 0 <= wnext < wsize
      requires 0 <= whave <= wsize && (whave < wsize ==> wnext == whave)
      modifies this`wnext, this`whave, window
      ensures Wrote(old(window[..]), window[..], old(wnext), wsize, src[end - copy0..end])
      ensures wnext == if old(wnext) + copy0 >= wsize then old(wnext) + copy0 - wsize else old(wnext) + copy0
      ensures whave == Min(old(whave) + copy0, wsize)
    {
      var copy := copy0;
      var dist := wsize - wnext;
      if dist > copy { dist := copy; }
      Fill(wnext, src, end - copy, dist);
      copy := copy - dist;
      if copy > 0 {
        Fill(0, src, end - copy, copy);
        wnext := copy;
        whave := wsize;
      } else {
        wnext := wnext + dist;
        if wnext == wsize { wnext := 0; }
        if whave < wsize { whave := whave + dist; }
      }
    }

    method Fill(at: int, src: array<int>, from: int, n: int)
      requires window != src && 0 <= at && 0 <= n && at + n <= window.Length && 0 <= from && from + n <= src.Length
      modifies window
      ensures forall i {:trigger window[i]} :: 0 <= i < window.Length ==>
        window[i] == if at <= i < at + n then src[from + (i - at)] else old(window[i])
    {
      for k := 0 to n
        invariant forall i {:trigger window[i]} :: 0 <= i < window.Length ==>
          window[i] == if at <= i < at + k then src[from + (i - at)] else old(window[i])
      {
        window[at + k] := src[from + k];
      }
    }

    // ----- one call --------------------------------------------------------------------------------------------------

    /** Within a call: the window is as the call found it, and the text is as far as the state says. */
    ghost predicate Going()
      reads this, window, out
    {
      Windowed() && window != out && 0 <= put <= out.Length && Decoded(mode, length, offset, Text(), done, size)
    }

    /** Between calls all the text is history. After a refusal nothing more is decoded. */
    ghost predicate Between()
      reads this, window
    {
      Decoded(mode, length, offset, history, done, size) && (mode != Bad ==> Windowed())
    }

    constructor (wide: nat)
      requires 0 < wide
      ensures Between() && mode == Len && done == [] && history == [] && size == wide && fresh(window)
    {
      size := wide;
      window := new int[wide];
      out := new int[0];
      wsize, wnext, whave, mode, length, offset, put := 0, 0, 0, Len, 0, 0, 0;
      history, done := [], [];
    }

    /** The symbol goes out at once if there is room for the longest, else its state is entered. */
    method TakeFast(sym: Symbol)
      requires Going() && mode == Len && Coded(sym) && out.Length - put >= MAX_MATCH
      modifies this`put, this`mode, this`length, this`offset, this`done, out
      ensures Going() && done == old(done) + [sym] && out == old(out) && (mode == Len || mode == Bad)
      ensures old(put) <= put
    {
      hide Keeps, Repeats, Expand, Decoded;
      ghost var was, wasDone := Text(), done;
      LenText(mode, length, offset, was, done, size);
      done := done + [sym];
      if sym.Literal? {
        out[put] := sym.c;
        put := put + 1;
        TakesLiteral(was, wasDone, sym.c, offset, size);
        length := sym.c;
        assert Text() == was + [sym.c];
      } else {
        offset, length := sym.dist, sym.len;
        TakesMatch(was, wasDone, sym.dist, sym.len, size);
        var ok := FastMatch(sym.dist, sym.len);
        if ok {
          assert was <= Text();
          Copies(was, done, sym.dist, sym.len, size, Text(), sym.len, Len);
          length := 0;
        } else {
          TooFar(old(put));
          Refuses(was, done, sym.dist, sym.len, size);
          mode := Bad;
        }
      }
    }

    lemma TooFar(at: int)
      requires Windowed() && 0 <= at <= out.Length && at == put && offset > at + whave
      ensures offset > size || offset > |Text()|
    {
    }

    lemma LenText(mode: Mode, length: int, offset: int, text: seq<int>, done: seq<Symbol>, size: int)
      requires Decoded(mode, length, offset, text, done, size) && mode == Len
      ensures text == Expand(done)
    {
    }

    /** The LEN state takes the next symbol. */
    method Take(sym: Symbol)
      requires Going() && mode == Len && Coded(sym)
      modifies this`mode, this`length, this`offset, this`done
      ensures Going() && done == old(done) + [sym] && mode == if sym.Literal? then Lit else InMatch
    {
      hide Keeps, Expand, Decoded;
      ghost var was, wasDone := Text(), done;
      LenText(mode, length, offset, was, done, size);
      done := done + [sym];
      if sym.Literal? {
        length := sym.c;
        mode := Lit;
        TakesLiteral(was, wasDone, sym.c, offset, size);
      } else {
        offset, length := sym.dist, sym.len;
        mode := InMatch;
        TakesMatch(was, wasDone, sym.dist, sym.len, size);
      }
    }

    /** The LIT state, with room. */
    method PutLiteral()
      requires Going() && mode == Lit && put < out.Length
      modifies this`mode, this`put, out
      ensures Going() && mode == Len && put == old(put) + 1
    {
      hide Keeps, Expand;
      ghost var was := Text();
      out[put] := length;
      put := put + 1;
      mode := Len;
      assert Text() == was + [length];
    }

    /** The MATCH state, with room. */
    method PutMatch()
      requires Going() && mode == InMatch && put < out.Length
      modifies this`mode, this`put, this`length, out
      ensures Going() && (mode == Bad || put > old(put))
      ensures mode == Bad <==> offset > old(put) + whave
    {
      hide Keeps, Expand, Decoded, Repeats;
      ghost var was, len := Text(), length;
      MatchLeft(mode, length, offset, was, done, size);
      MatchStep();
      if mode == Bad {
        TooFar(put);
        assert Text() == was;
        Refuses(was, done, offset, len, size);
      } else {
        assert was <= Text();
        Copies(was, done, offset, len, size, Text(), len - length, mode);
      }
    }

    lemma MatchLeft(mode: Mode, length: int, offset: int, text: seq<int>, done: seq<Symbol>, size: int)
      requires Decoded(mode, length, offset, text, done, size) && mode == InMatch
      ensures 0 < length && 0 < offset
    {
    }

    /**
     One call: symbols are taken until they run out, the output is full, or a distance is refused. However the output is
     split into calls, the text is what the symbols stand for, and no legal stream is refused.
     */
    method Inflate(buffer: array<int>, input: seq<Symbol>) returns (used: nat)
      requires Between() && mode != Bad && buffer != window && forall i {:trigger input[i]} :: 0 <= i < |input| ==>
        Coded(input[i])
      modifies this, window, buffer
      ensures Between() && used <= |input| && done == old(done) + input[..used]
      ensures out == buffer && 0 <= put <= buffer.Length && history == old(history) + buffer[..put]
      ensures mode == Len ==> used == |input| && history == Expand(done)
      ensures mode == Lit || mode == InMatch ==> put == buffer.Length
      ensures Legal(done, size) ==> mode != Bad
    {
      hide Keeps, Expand, Decoded, Legal, Coded;
      used := 0;
      out, put := buffer, 0;
      assert Text() == history;
      while true
        invariant Going() && out == buffer && history == old(history) && used <= |input|
          && done == old(done) + input[..used]
        decreases |input| - used, match mode case Len => 0 case Lit => 1 case InMatch => 1 case Bad => 0,
          out.Length - put
      {
        if mode == Len {
          if used == |input| { break; }
          assert input[..used + 1] == input[..used] + [input[used]];
          var fast: bool := *;
          if fast && out.Length - put >= MAX_MATCH {
            TakeFast(input[used]);
          } else {
            Take(input[used]);
          }
          used := used + 1;
        } else if mode == Lit {
          if put == out.Length { break; }
          PutLiteral();
        } else if mode == InMatch {
          if put == out.Length { break; }
          PutMatch();
        } else {
          break;
        }
      }
      ghost var text := Text();
      if mode == Len { LenText(mode, length, offset, text, done, size); }
      if Legal(done, size) { LegalNotBad(mode, length, offset, text, done, size); }
      assert out[put - put..put] == out[..put];
      if wsize != 0 || (put != 0 && mode != Bad) {
        UpdateWindow(out, put, put);
      } else {
        assert put == 0 ==> history + out[..put] == history;
        history := history + out[..put];
      }
      assert history == text;
    }
  }

  lemma NoneExpands()
    ensures Expand([]) == []
  {
  }

  lemma TakenOn(syms: seq<Symbol>, used: nat, more: nat)
    requires used + more <= |syms|
    ensures syms[..used] + syms[used..][..more] == syms[..used + more]
  {
  }

  /** Output buffers of any sizes, one call after the other, give back the whole text of a legal stream. */
  method InflateInPieces(wide: nat, syms: seq<Symbol>) returns (text: seq<int>)
    requires 0 < wide && Legal(syms, wide)
    ensures text == Expand(syms)
  {
    hide Keeps, Expand, Decoded, Legal, Coded;
    NoneExpands();
    forall i {:trigger syms[i]} | 0 <= i < |syms| ensures Coded(syms[i]) { LegalCoded(syms, i, wide); }
    assert syms[..|syms|] == syms;
    var z := new Inflater(wide);
    text := [];
    var used := 0;
    while used < |syms| || z.mode != Len
      invariant 0 <= used <= |syms| && z.Between() && z.mode != Bad && z.done == syms[..used] && z.history == text
        && z.size == wide
      invariant fresh(z) && fresh(z.window) && text <= Expand(syms)
        && (z.mode == Len && used == |syms| ==> text == Expand(syms))
      decreases |Expand(syms)| - |text|, if used == |syms| && z.mode == Len then 0 else 1
    {
      var n: nat :| n > 0;
      var buffer := new int[n];
      ghost var was := used;
      var more := z.Inflate(buffer, syms[used..]);
      TakenOn(syms, used, more);
      used := used + more;
      LegalPrefix(syms, used, wide);
      text := text + buffer[..z.put];
      ExpandGrows(syms, used);
      DecodedWithin(z.mode, z.length, z.offset, z.history, z.done, wide);
    }
  }
}
