/**
 A deflate block from the symbol buffer to bits and back: compress_block, the reading of inflate, and both with the
 codes that build_tree makes and the tables that inflate_table makes of them (dep/zlib/trees.c:1042-1092;
 dep/zlib/inflate.c:1062-1168).
 */
module FlateBlock {
  import opened BitBuffer
  import opened DeflateTrees
  import opened FlateCode
  import opened FlateCost
  import opened FlateMerge
  import opened FlateStream
  import opened FlateTree
  import opened LengthCodes
  import opened LzWindow
  import opened Powers
  import opened SymbolBuffer
  import opened TableBuilding
  import opened TableDecoding
  import opened TreeCost
  import IT = InflateTable
  import TableSpace

  /** The codes and lengths of a tree. */
  datatype Tree = Tree(code: seq<int>, len: seq<int>)

  ghost predicate Coded(t: Tree) {
    CodesUpTo(t.code, t.len, |t.len|)
  }

  lemma CodeOf(t: Tree, s: int)
    requires Coded(t) && Present(t.len, s)
    ensures 0 <= s < |t.len| <= |t.code| && t.code[s] == Value(t.len, s) < Pow2(t.len[s])
      && 1 <= t.len[s] <= MAX_BITS == 15
  {
    hide Code, Pow2, Rev;
    assert CodeAt(t.code[s], t.len, s);
  }

  /** Whatever comes behind: the stream of value v and n bits is the one of v0 and n0 with done in front. */
  ghost predicate Told(v: nat, n: nat, v0: nat, n0: nat, left: seq<Symbol>, syms: seq<Symbol>, L: seq<int>, D: seq<int>,
                       k: Coder)
    requires Coding(k) && AllSendable(left, L, D, k) && AllSendable(syms, L, D, k)
  {
    forall rest: nat {:trigger Sent(left, L, D, k, rest)} ::
      Put(v, n, Sent(left, L, D, k, rest)) == Put(v0, n0, Sent(syms, L, D, k, rest))
  }

  /** send_code */
  method SendCode(b: BitBuffer, t: Tree, s: int)
    requires b.Valid() && Coded(t) && Present(t.len, s)
    modifies b
    ensures b.Valid() && b.Size() == old(b.Size()) + BitsOf(t.len, s)
    ensures forall rest: nat {:trigger Put(b.Value(), b.Size(), rest)} ::
      Put(b.Value(), b.Size(), rest) == Put(old(b.Value()), old(b.Size()), SentCode(t.len, s, rest))
  {
    hide *;
    CodeOf(t, s);
    SixteenBits();
    PresentThere(t.len, s);
    ghost var v, n := b.Value(), b.Size();
    b.SendBits(t.code[s], t.len[s]);
    forall rest: nat
      ensures Put(b.Value(), b.Size(), rest) == Put(v, n, SentCode(t.len, s, rest))
    {
      SentOn(v, n, t.code[s], t.len[s], rest);
      SentCodeIs(t.len, s, rest);
    }
  }

  lemma SentCodeIs(lens: seq<int>, s: int, rest: nat)
    requires Present(lens, s)
    ensures 0 <= s < |lens| && 1 <= lens[s] && SentCode(lens, s, rest) == Put(Value(lens, s), lens[s], rest)
  {
    hide Code, Put;
  }

  /** The extra bits of a length or a distance, if there are any. */
  method SendExtra(b: BitBuffer, value: nat, extra: nat)
    requires b.Valid() && extra < 16 && value < Pow2(extra)
    modifies b
    ensures b.Valid() && b.Size() == old(b.Size()) + extra
    ensures forall rest: nat {:trigger Put(b.Value(), b.Size(), rest)} ::
      Put(b.Value(), b.Size(), rest) == Put(old(b.Value()), old(b.Size()), Put(value, extra, rest))
  {
    hide *;
    SixteenBits();
    ghost var v, n := b.Value(), b.Size();
    NoExtra(value);
    if extra != 0 { b.SendBits(value, extra); }
    forall rest: nat
      ensures Put(b.Value(), b.Size(), rest) == Put(v, n, Put(value, extra, rest))
    {
      if extra != 0 { SentOn(v, n, value, extra, rest); } else { NothingPut(rest); }
    }
  }

  lemma NoExtra(value: nat)
    ensures value < Pow2(0) ==> value == 0
  {
  }

  lemma NothingPut(rest: nat)
    ensures Put(0, 0, rest) == rest
  {
  }

  /** A match, by the code of its length and the code of its distance. */
  method SendMatch(b: BitBuffer, ltree: Tree, dtree: Tree, k: Coder, dist0: int, lc: int)
    requires b.Valid() && Coded(ltree) && Coded(dtree) && Coding(k)
    requires Sendable(Match(dist0, lc + 3), ltree.len, dtree.len, k)
    modifies b
    ensures b.Valid() && b.Size() == old(b.Size()) + MatchBits(dist0, lc + 3, ltree.len, dtree.len, k)
    ensures forall rest: nat {:trigger Put(b.Value(), b.Size(), rest)} ::
      Put(b.Value(), b.Size(), rest) ==
      Put(old(b.Value()), old(b.Size()), SentMatch(dist0, lc + 3, ltree.len, dtree.len, k, rest))
  {
    hide *;
    ghost var L, D := ltree.len, dtree.len;
    MatchCodes(dist0, lc + 3, L, D, k);
    ghost var v0, n0 := b.Value(), b.Size();
    var code := k.lcode[lc];
    FewExtra(code);
    SendCode(b, ltree, 257 + code);
    ghost var v1, n1 := b.Value(), b.Size();
    var x, ex := if EXTRA_LBITS[code] != 0 then lc - k.lbase[code] else 0, EXTRA_LBITS[code];
    RestIs(lc, code, k.lbase[code]);
    SendExtra(b, x, ex);
    ghost var v2, n2, c := b.Value(), b.Size(), code;
    var dist := dist0 - 1;
    code := k.dcode[Place(dist)];
    FewExtraDistance(code);
    DistanceParts(dist0, code, k.dbase[code]);
    SendCode(b, dtree, code);
    ghost var v3, n3 := b.Value(), b.Size();
    var y, ey := dist - k.dbase[code], EXTRA_DBITS[code];
    SendExtra(b, y, ey);
    MatchParts(dist0, lc + 3, L, D, k, 0);
    forall rest: nat
      ensures Put(b.Value(), b.Size(), rest) == Put(v0, n0, SentMatch(dist0, lc + 3, L, D, k, rest))
    {
      MatchParts(dist0, lc + 3, L, D, k, rest);
      var r3 := Put(y, ey, rest);
      var r2 := SentCode(D, code, r3);
      var r1 := Put(x, ex, r2);
      assert Put(b.Value(), b.Size(), rest) == Put(v3, n3, r3);
      assert Put(v3, n3, r3) == Put(v2, n2, r2);
      assert Put(v2, n2, r2) == Put(v1, n1, r1);
      assert Put(v1, n1, r1) == Put(v0, n0, SentCode(L, 257 + c, r1));
    }
  }

  lemma RestIs(lc: int, c: int, base: int)
    requires 0 <= c < 29 && LengthCoded(lc, c, base)
    ensures |EXTRA_LBITS| == 29 && LengthRest(lc, c, base) == (if EXTRA_LBITS[c] != 0 then lc - base else 0)
    ensures 0 <= LengthRest(lc, c, base) < Pow2(EXTRA_LBITS[c])
  {
    hide LBASE, LEXT, Pow2;
  }

  // ----- a block ----------------------------------------------------------------------------------------------------

  lemma NothingTold(v: nat, n: nat, syms: seq<Symbol>, L: seq<int>, D: seq<int>, k: Coder)
    requires Coding(k) && AllSendable(syms, L, D, k)
    ensures Told(v, n, v, n, syms, syms, L, D, k)
  {
    hide Sent, Put;
  }

  /** One symbol more is told. */
  lemma ToldOn(v: nat, n: nat, v': nat, n': nat, v0: nat, n0: nat, left: seq<Symbol>, syms: seq<Symbol>, L: seq<int>,
               D: seq<int>, k: Coder)
    requires Coding(k) && AllSendable(left, L, D, k) && AllSendable(syms, L, D, k) && left != []
    requires Told(v, n, v0, n0, left, syms, L, D, k) && Sendable(left[0], L, D, k)
    requires forall rest: nat {:trigger Put(v', n', rest)} ::
      Put(v', n', rest) == Put(v, n, SentSymbol(left[0], L, D, k, rest))
    ensures AllSendable(left[1..], L, D, k) && Told(v', n', v0, n0, left[1..], syms, L, D, k)
  {
    SentParts(left, L, D, k, 0);
    hide Sent, Put, Coding, SentSymbol, Sendable;
    var more := left[1..];
    forall rest: nat {:trigger Sent(more, L, D, k, rest)}
      ensures Put(v', n', Sent(more, L, D, k, rest)) == Put(v0, n0, Sent(syms, L, D, k, rest))
    {
      SentParts(left, L, D, k, rest);
      assert Put(v', n', Sent(more, L, D, k, rest)) == Put(v, n, Sent(left, L, D, k, rest));
    }
  }

  /** compress_block: the symbols in the buffer and the end of the block go out as their codes. */
  method CompressBlock(b: BitBuffer, symBuf: array<int>, symNext: int, ltree: Tree, dtree: Tree, k: Coder,
                       ghost block: seq<Symbol>)
    requires b.Valid() && Holds(symBuf[..], symNext, block) && Coded(ltree) && Coded(dtree) && Coding(k)
    requires AllSendable(block, ltree.len, dtree.len, k)
    modifies b
    ensures b.Valid() && b.Size() == old(b.Size()) + SentBits(block, ltree.len, dtree.len, k)
    ensures forall rest: nat {:trigger Put(b.Value(), b.Size(), rest)} ::
      Put(b.Value(), b.Size(), rest) ==
      Put(old(b.Value()), old(b.Size()), Sent(block, ltree.len, dtree.len, k, rest))
  {
    hide *;
    ghost var L, D, v0, n0 := ltree.len, dtree.len, b.Value(), b.Size();
    HoldsCount(symBuf[..], symNext, block);
    NothingTold(v0, n0, block, L, D, k);
    var sx := 0;
    ghost var left := block;
    while sx < symNext
      invariant 0 <= sx && symNext - sx == 3 * |left| && |left| <= |block| && left == block[|block| - |left|..]
      invariant b.Valid() && AllSendable(left, L, D, k)
      invariant Told(b.Value(), b.Size(), v0, n0, left, block, L, D, k)
      invariant b.Size() + SentBits(left, L, D, k) == n0 + SentBits(block, L, D, k)
    {
      ghost var v, n := b.Value(), b.Size();
      SentParts(left, L, D, k, 0);
      SymbolAt(symBuf[..], symNext, block, |block| - |left|);
      assert left[0] == block[|block| - |left|];
      var dist := symBuf[sx] + symBuf[sx + 1] * 256;
      var lc := symBuf[sx + 2];
      sx := sx + 3;
      if dist == 0 { SendLiteral(b, ltree, dtree, k, lc); } else { SendOne(b, ltree, dtree, k, dist, lc); }
      ToldOn(v, n, b.Value(), b.Size(), v0, n0, left, block, L, D, k);
      left := left[1..];
    }
    SentParts(left, L, D, k, 0);
    ghost var v, n := b.Value(), b.Size();
    SendCode(b, ltree, END_BLOCK);
    forall rest: nat {:trigger Put(b.Value(), b.Size(), rest)}
      ensures Put(b.Value(), b.Size(), rest) == Put(v0, n0, Sent(block, L, D, k, rest))
    {
      SentParts(left, L, D, k, rest);
      ToldAt(v, n, v0, n0, left, block, L, D, k, rest);
    }
  }

  lemma ToldAt(v: nat, n: nat, v0: nat, n0: nat, left: seq<Symbol>, syms: seq<Symbol>, L: seq<int>, D: seq<int>,
    k: Coder,
               rest: nat)
    requires Coding(k) && AllSendable(left, L, D, k) && AllSendable(syms, L, D, k)
    requires Told(v, n, v0, n0, left, syms, L, D, k)
    ensures Put(v, n, Sent(left, L, D, k, rest)) == Put(v0, n0, Sent(syms, L, D, k, rest))
  {
    hide Sent, Put, Coding, AllSendable;
  }

  lemma HoldsCount(buf: seq<int>, n: int, block: seq<Symbol>)
    requires Holds(buf, n, block)
    ensures n == 3 * |block| <= |buf|
  {
    hide SymbolOf;
  }

  lemma SymbolAt(buf: seq<int>, n: int, block: seq<Symbol>, i: int)
    requires Holds(buf, n, block) && 0 <= i < |block|
    ensures n == 3 * |block| <= |buf|
    ensures block[i] == var dist := buf[3 * i] + buf[3 * i + 1] * 256;
      if dist == 0 then Literal(buf[3 * i + 2]) else Match(dist, buf[3 * i + 2] + 3)
  {
    assert SymbolOf(buf[3 * i], buf[3 * i + 1], buf[3 * i + 2]) == block[i];
  }

  /** A symbol that is a literal byte. */
  method SendLiteral(b: BitBuffer, ltree: Tree, dtree: Tree, k: Coder, c: int)
    requires b.Valid() && Coded(ltree) && Coding(k) && Sendable(Literal(c), ltree.len, dtree.len, k)
    modifies b
    ensures b.Valid() && b.Size() == old(b.Size()) + SymbolBits(Literal(c), ltree.len, dtree.len, k)
    ensures forall rest: nat {:trigger Put(b.Value(), b.Size(), rest)} ::
      Put(b.Value(), b.Size(), rest) ==
      Put(old(b.Value()), old(b.Size()), SentSymbol(Literal(c), ltree.len, dtree.len, k, rest))
  {
    hide Code, Coding, Put, SentCode, Coded, BitsOf;
    SendCode(b, ltree, c);
  }

  method SendOne(b: BitBuffer, ltree: Tree, dtree: Tree, k: Coder, dist: int, lc: int)
    requires b.Valid() && Coded(ltree) && Coded(dtree) && Coding(k)
    requires Sendable(Match(dist, lc + 3), ltree.len, dtree.len, k)
    modifies b
    ensures b.Valid() && b.Size() == old(b.Size()) + SymbolBits(Match(dist, lc + 3), ltree.len, dtree.len, k)
    ensures forall rest: nat {:trigger Put(b.Value(), b.Size(), rest)} ::
      Put(b.Value(), b.Size(), rest) ==
      Put(old(b.Value()), old(b.Size()), SentSymbol(Match(dist, lc + 3), ltree.len, dtree.len, k, rest))
  {
    hide Code, Coding, Put, SentMatch, MatchBits, Coded, Sendable;
    SendMatch(b, ltree, dtree, k, dist, lc);
  }

  // ----- reading ----------------------------------------------------------------------------------------------------

  /** The entry that a stream leads to, through a link if there is one, and the bits it takes. */
  method LookUp(table: array<Entry>, root: nat, h: nat, ghost lens: seq<int>, ghost t: CodeType)
    returns (here: Entry, bits: int)
    requires Ready(table[..], root, lens, t)
    ensures (here, bits) == Looked(table[..], root, lens, t, h)
  {
    hide *;
    ReadyTable(table[..], root, lens, t, h);
    here := table[h % Pow2(root)];
    bits := here.bits;
    LookedIs(table[..], root, lens, t, h, here);
    if 0 < here.op < 16 {
      var last := here;
      DropRoot(h, last.bits, last.op);
      here := table[last.val + h % Pow2(last.bits + last.op) / Pow2(last.bits)];
      bits := last.bits + here.bits;
    }
  }

  lemma ReadyTable(table: seq<Entry>, root: nat, lens: seq<int>, t: CodeType, h: nat)
    requires Ready(table, root, lens, t)
    ensures 0 <= h % Pow2(root) < Pow2(root) <= |table|
  {
    hide Ready, Pow2;
    ReadyLooks(table, root, lens, t, h);
    Remainder(h, Pow2(root));
  }

  lemma Remainder(h: nat, p: nat)
    requires p > 0
    ensures 0 <= h % p < p
  {
  }

  lemma LookedIs(table: seq<Entry>, root: nat, lens: seq<int>, t: CodeType, h: nat, here: Entry)
    requires Ready(table, root, lens, t) && 0 <= h % Pow2(root) < |table| && here == table[h % Pow2(root)]
    ensures !(0 < here.op < 16) ==> Looked(table, root, lens, t, h) == (here, here.bits)
    ensures 0 < here.op < 16 ==> here.bits == root && 0 <= here.val
    ensures 0 < here.op < 16 ==>
      var at := here.val + h / Pow2(root) % Pow2(here.op);
      0 <= at < |table| && Looked(table, root, lens, t, h) == (table[at], here.bits + table[at].bits)
  {
    hide Ready, Pow2;
    ReadyLooks(table, root, lens, t, h);
    if 0 < here.op < 16 { Remainder(h / Pow2(root), Pow2(here.op)); }
  }

  /** The next symbol: a literal, the end of the block, or a length and its distance with their extra bits. */
  method NextSymbol(lt: array<Entry>, lroot: nat, dt: array<Entry>, droot: nat, h: nat, n: nat, ghost L: seq<int>,
                    ghost D: seq<int>) returns (r: Read)
    requires Ready(lt[..], lroot, L, Lens) && Ready(dt[..], droot, D, Dists)
    ensures r == ReadSymbol(lt[..], lroot, L, dt[..], droot, D, h, n)
  {
    hide Ready, Looked, Pow2;
    var here, bits := LookUp(lt, lroot, h, L, Lens);
    if bits > n { return Short; }
    var hold, have := Behind(h, bits), n - bits;
    var length := here.val;
    if here.op == 0 { return Sym(Literal(length), hold, have); }
    if here.op / 32 % 2 == 1 { return End(hold, have); }
    if here.op / 64 % 2 == 1 { return Bad; }
    var extra := here.op % 16;
    if extra > have { return Short; }
    length := length + Bits(hold, extra);
    hold, have := Behind(hold, extra), have - extra;
    here, bits := LookUp(dt, droot, hold, D, Dists);
    if bits > have { return Short; }
    hold, have := Behind(hold, bits), have - bits;
    if here.op / 64 % 2 == 1 { return Bad; }
    var offset := here.val;
    extra := here.op % 16;
    if extra > have { return Short; }
    offset := offset + Bits(hold, extra);
    hold, have := Behind(hold, extra), have - extra;
    r := Sym(Match(offset, length), hold, have);
  }

  function Joined(out: seq<Symbol>, r: Block): Block {
    match r
    case Symbols(syms, h, n) => Symbols(out + syms, h, n)
    case _ => r
  }

  /** All symbols up to the end of the block. */
  method InflateBlock(lt: array<Entry>, lroot: nat, dt: array<Entry>, droot: nat, h0: nat, n0: nat, ghost L: seq<int>,
                      ghost D: seq<int>) returns (r: Block)
    requires Ready(lt[..], lroot, L, Lens) && Ready(dt[..], droot, D, Dists)
    ensures r == ReadSymbols(lt[..], lroot, L, dt[..], droot, D, h0, n0)
  {
    hide *;
    var out, h, n: nat := [], h0, n0;
    ghost var goal := ReadSymbols(lt[..], lroot, L, dt[..], droot, D, h0, n0);
    JoinedNothing(goal);
    while true
      invariant Joined(out, ReadSymbols(lt[..], lroot, L, dt[..], droot, D, h, n)) == goal
      decreases n
    {
      var read := NextSymbol(lt, lroot, dt, droot, h, n, L, D);
      ReadOn(lt[..], lroot, L, dt[..], droot, D, h, n, out);
      match read {
        case Sym(sym, h', n') =>
          out := out + [sym];
          h, n := h', n';
        case End(h', n') => return Symbols(out, h', n');
        case Bad => return Corrupt;
        case Short => return NeedBits;
      }
    }
  }

  lemma JoinedNothing(r: Block)
    ensures Joined([], r) == r
  {
  }

  lemma ReadOn(lt: seq<Entry>, lroot: nat, L: seq<int>, dt: seq<Entry>, droot: nat, D: seq<int>, h: nat, n: nat,
               out: seq<Symbol>)
    requires Ready(lt, lroot, L, Lens) && Ready(dt, droot, D, Dists)
    ensures var all := Joined(out, ReadSymbols(lt, lroot, L, dt, droot, D, h, n));
      match ReadSymbol(lt, lroot, L, dt, droot, D, h, n)
      case Sym(sym, h', n') =>
        n' < n && all == Joined(out + [sym], ReadSymbols(lt, lroot, L, dt, droot, D, h', n'))
      case End(h', n') => all == Symbols(out, h', n')
      case Bad => all == Corrupt
      case Short => all == NeedBits
  {
    hide Ready, ReadSymbol;
    match ReadSymbol(lt, lroot, L, dt, droot, D, h, n)
    case Sym(sym, h', n') =>
      match ReadSymbols(lt, lroot, L, dt, droot, D, h', n') {
        case Symbols(more, h'', n'') => assert out + ([sym] + more) == (out + [sym]) + more;
        case _ =>
      }
    case _ =>
  }

  // ----- the whole --------------------------------------------------------------------------------------------------

  /** The frequencies count every code the symbols need, and the end of the block. */
  ghost predicate Counted(syms: seq<Symbol>, lf: seq<int>, df: seq<int>, k: Coder)
    requires Coding(k) && L_CODES <= |lf| && D_CODES <= |df|
  {
    && lf[END_BLOCK] != 0
    && forall i {:trigger syms[i]} :: 0 <= i < |syms| ==> CountedOne(syms[i], lf, df, k)
  }

  ghost predicate CountedOne(sym: Symbol, lf: seq<int>, df: seq<int>, k: Coder)
    requires Coding(k) && L_CODES <= |lf| && D_CODES <= |df|
  {
    match sym
    case Literal(c) => 0 <= c < 256 && lf[c] != 0
    case Match(dist, len) =>
      && MIN_MATCH <= len <= MAX_MATCH && 1 <= dist <= 32768
      && 0 <= k.lcode[len - 3] < 29 && 0 <= Place(dist - 1) < 512 && 0 <= k.dcode[Place(dist - 1)] < D_CODES
      && lf[257 + k.lcode[len - 3]] != 0 && df[k.dcode[Place(dist - 1)]] != 0
  }

  /** Lengths that build_tree gives are complete, and every symbol counted has a code. */
  lemma BuiltComplete(lens: seq<int>, cnt: seq<int>, t: CodeType)
    requires FlateCode.Lengths(lens) && |lens| <= SymbolLimit(t) && cnt == CountsOf(lens)
      && Used(cnt, MAX_BITS) == Pow2(MAX_BITS)
    ensures Complete(lens, t)
  {
    hide Used, Pow2, CountsOf;
  }

  lemma CountedSendable(syms: seq<Symbol>, lf: seq<int>, df: seq<int>, k: Coder, L: seq<int>, D: seq<int>)
    requires Coding(k) && L_CODES <= |lf| && D_CODES <= |df| && Counted(syms, lf, df, k)
    requires FlateCode.Lengths(L) && FlateCode.Lengths(D)
    requires forall y {:trigger lf[y]} :: 0 <= y < L_CODES && lf[y] != 0 ==> y < |L| && 1 <= L[y]
    requires forall y {:trigger df[y]} :: 0 <= y < D_CODES && df[y] != 0 ==> y < |D| && 1 <= D[y]
    ensures AllSendable(syms, L, D, k)
  {
    assert lf[END_BLOCK] != 0;
    IsPresent(L, END_BLOCK);
    hide Coding, Code;
    forall i {:trigger syms[i]} | 0 <= i < |syms| ensures Sendable(syms[i], L, D, k) {
      assert CountedOne(syms[i], lf, df, k);
      OneSendable(syms[i], lf, df, k, L, D);
    }
  }

  lemma OneSendable(sym: Symbol, lf: seq<int>, df: seq<int>, k: Coder, L: seq<int>, D: seq<int>)
    requires Coding(k) && L_CODES <= |lf| && D_CODES <= |df| && CountedOne(sym, lf, df, k)
    requires FlateCode.Lengths(L) && FlateCode.Lengths(D)
    requires forall y {:trigger lf[y]} :: 0 <= y < L_CODES && lf[y] != 0 ==> y < |L| && 1 <= L[y]
    requires forall y {:trigger df[y]} :: 0 <= y < D_CODES && df[y] != 0 ==> y < |D| && 1 <= D[y]
    ensures Sendable(sym, L, D, k)
  {
    hide *;
    CountedParts(sym, lf, df, k);
    match sym {
      case Literal(c) =>
        IsPresent(L, c);
        LiteralSendable(c, L, D, k);
      case Match(dist, len) =>
        TwoPresent(lf, df, 257 + k.lcode[len - 3], k.dcode[Place(dist - 1)], L, D);
        MatchSendable(dist, len, L, D, k);
    }
  }

  lemma CountedParts(sym: Symbol, lf: seq<int>, df: seq<int>, k: Coder)
    requires Coding(k) && L_CODES <= |lf| && D_CODES <= |df| && CountedOne(sym, lf, df, k)
    ensures L_CODES == 286 && D_CODES == 30
    ensures sym.Literal? ==> 0 <= sym.c < 256 && lf[sym.c] != 0
    ensures sym.Match? ==>
      MIN_MATCH <= sym.len <= MAX_MATCH && 1 <= sym.dist <= 32768
      && 0 <= sym.len - 3 < |k.lcode| && 0 <= Place(sym.dist - 1) < |k.dcode|
    ensures sym.Match? ==>
      var c, d := k.lcode[sym.len - 3], k.dcode[Place(sym.dist - 1)];
      0 <= c < 29 && 0 <= d < D_CODES && lf[257 + c] != 0 && df[d] != 0
  {
    hide Place, Coding;
    CoderSizes(k);
  }

  lemma LiteralSendable(c: int, L: seq<int>, D: seq<int>, k: Coder)
    requires Coding(k) && 0 <= c < 256 && Present(L, c)
    ensures Sendable(Literal(c), L, D, k)
  {
    hide Code, Coding;
  }

  lemma MatchSendable(dist: int, len: int, L: seq<int>, D: seq<int>, k: Coder)
    requires Coding(k) && MIN_MATCH <= len <= MAX_MATCH && 1 <= dist <= 32768
    requires 0 <= len - 3 < |k.lcode| && 0 <= Place(dist - 1) < |k.dcode|
    requires 0 <= k.lcode[len - 3] < 29 && 0 <= k.dcode[Place(dist - 1)] < 30
    requires Present(L, 257 + k.lcode[len - 3]) && Present(D, k.dcode[Place(dist - 1)])
    ensures Sendable(Match(dist, len), L, D, k)
  {
    hide Code, Coding, Place;
    CoderSizes(k);
  }

  lemma CoderSizes(k: Coder)
    requires Coding(k)
    ensures |k.lcode| == 256 && |k.lbase| == 29 && |k.dcode| == 512 && |k.dbase| == 30
  {
    hide LengthCoded, DistanceCoded, Place;
  }

  lemma TwoPresent(lf: seq<int>, df: seq<int>, c: int, d: int, L: seq<int>, D: seq<int>)
    requires L_CODES <= |lf| && D_CODES <= |df| && 0 <= c < L_CODES && 0 <= d < D_CODES && lf[c] != 0 && df[d] != 0
    requires FlateCode.Lengths(L) && FlateCode.Lengths(D)
    requires forall y {:trigger lf[y]} :: 0 <= y < L_CODES && lf[y] != 0 ==> y < |L| && 1 <= L[y]
    requires forall y {:trigger df[y]} :: 0 <= y < D_CODES && df[y] != 0 ==> y < |D| && 1 <= D[y]
    ensures Present(L, c) && Present(D, d)
  {
    hide Code, FlateCode.Lengths;
    IsPresent(L, c);
    IsPresent(D, d);
  }

  /** The tables that inflate_table leaves for complete lengths are ready to read with. */
  lemma TablesReady(table: seq<Entry>, bits: nat, lens: seq<int>, t: CodeType)
    requires Complete(lens, t)
    requires forall s {:trigger lens[s]} :: 0 <= s < |lens| && lens[s] != 0 ==> Found(table, bits, lens, t, s)
    ensures Ready(table, bits, lens, t)
  {
    hide Complete, Found;
  }

  lemma CompleteIsCode(lens: seq<int>, t: CodeType)
    requires Complete(lens, t)
    ensures IT.Legal(lens, t) && !IT.NoCode(lens, t) && !IT.NoneUsed(lens) && FlateCode.Lengths(lens)
  {
    hide Code;
    var s := EveryStream(lens, 0);
    assert lens[s] != 0;
  }

  /** The table, with the root bits it gets, needs more space than there is. */
  ghost predicate TooLarge(lens: seq<int>, t: CodeType, bits0: nat)
    requires FlateCode.Lengths(lens)
  {
    exists b: nat {:trigger IT.RootBits(lens, bits0, b)} ::
      IT.RootBits(lens, bits0, b) && TableSpace.Needed(lens, b, Pow2(b)) > IT.Limit(t, bits0)
  }

  lemma IsTooLarge(lens: seq<int>, t: CodeType, bits0: nat, b: nat)
    requires FlateCode.Lengths(lens) && IT.RootBits(lens, bits0, b)
    requires TableSpace.Needed(lens, b, Pow2(b)) > IT.Limit(t, bits0)
    ensures TooLarge(lens, t, bits0)
  {
    hide TableSpace.Needed, Pow2;
  }

  /** The tables of a complete code; no table if there is not enough space for it. */
  method Tabled(t: CodeType, lens: array<int>, codes: int, table: array<Entry>, bits0: int, work: array<int>)
    returns (ok: bool, bits: nat)
    requires lens != work && 0 <= codes <= lens.Length && codes <= work.Length && 1 <= bits0 <= MAX_BITS
    requires Complete(lens[..codes], t) && !t.Codes? && IT.Limit(t, bits0) <= table.Length
    modifies table, work
    ensures ok ==> Ready(table[..], bits, lens[..codes], t)
    ensures !ok ==> TooLarge(lens[..codes], t, bits0)
  {
    hide *;
    CompleteIsCode(lens[..codes], t);
    var ret, used;
    ret, bits, used := IT.InflateTable(t, lens, codes, table, bits0, work);
    ok := ret == 0;
    if !ok { IsTooLarge(lens[..codes], t, bits0, bits); }
    if ok {
      ghost var L := lens[..codes];
      forall s {:trigger L[s]} | 0 <= s < |L| && L[s] != 0 ensures Found(table[..], bits, L, t, s) {
        assert lens[s] == L[s];
      }
      TablesReady(table[..], bits, L, t);
    }
  }

  /** The tree of a kind of code from its frequencies. */
  method MakeTree(builder: TreeBuilder, fc: array<int>, dl: array<int>, elems: int, t: CodeType, d: Desc)
    returns (tree: Tree, opt: int, stat: int, cut: int)
    requires builder.Arrays(fc, dl) && builder.Ranges(fc) && 3 <= elems <= L_CODES && elems <= SymbolLimit(t)
    requires 2 * elems <= fc.Length && 2 * elems <= dl.Length && Described(d, elems) && NoneAtFirst(d)
    modifies builder, builder.heap, builder.depth, builder.blCount, fc, dl
    ensures builder.DepthsFit() && Coded(tree) && Complete(tree.len, t) && FlateCode.Lengths(tree.len)
    ensures 0 < |tree.len| <= elems && tree.len == dl[..|tree.len|]
    ensures var freq := old(fc[..]); forall y {:trigger freq[y]} ::
      0 <= y < elems && freq[y] != 0 ==> y < |tree.len| && 1 <= tree.len[y]
    ensures Costs(old(fc[..]), dl[..], d, elems, opt, stat) && BestLengths(old(fc[..]), dl[..], d, elems, 15, cut)
  {
    hide *;
    EnoughBits(elems);
    ghost var freq := fc[..];
    var maxCode;
    maxCode, opt, stat, cut := builder.BuildTree(fc, dl, elems, 15, d);
    ghost var lens := dl[..maxCode + 1];
    LengthsFrom(lens);
    BuiltComplete(lens, builder.blCount[..], t);
    tree := Tree(fc[..], dl[..maxCode + 1]);
    CodedFrom(tree);
    forall y {:trigger freq[y]} | 0 <= y < elems && freq[y] != 0 ensures y < |tree.len| && 1 <= tree.len[y] {
      var l := dl[y];
      assert y <= maxCode && tree.len[y] == l;
    }
  }

  lemma EnoughBits(elems: int)
    requires elems <= L_CODES
    ensures elems <= Pow2(15) && MAX_BITS == 15 && L_CODES == 286
  {
    assert Pow2(9) == 512;
    PowGrows(9, 15);
  }

  lemma LengthsFrom(lens: seq<int>)
    requires forall y {:trigger lens[y]} :: 0 <= y < |lens| ==> 0 <= lens[y] <= 15
    ensures FlateCode.Lengths(lens)
  {
  }

  lemma CodedFrom(t: Tree)
    requires CodesUpTo(t.code, t.len, |t.len|)
    ensures Coded(t)
  {
  }

  /**
   A block of symbols through everything: trees from the frequencies, the bits, the tables from the lengths, and the
   symbols read back. Unless a table needs more space than there is, they are the symbols that went in, with the rest
   behind them. The bits sent are as many as the trees were found to cost, if the frequencies are those of the block.
   */
  method ThereAndBack(builder: TreeBuilder, lfc: array<int>, ldl: array<int>, dfc: array<int>, ddl: array<int>,
                      symBuf: array<int>, symNext: int, k: Coder, lt: array<Entry>, dt: array<Entry>, work: array<int>,
                      rest: nat, m: nat, ghost block: seq<Symbol>)
    returns (ok: bool, r: Block, sent: nat, optLen: int, staticLen: int, cut: int, ghost L: seq<int>, ghost D: seq<int>)
    requires builder.Arrays(lfc, ldl) && builder.Arrays(dfc, ddl) && builder.Ranges(lfc) && builder.Ranges(dfc)
    requires lfc != dfc && lfc != ddl && ldl != dfc && ldl != ddl && work != ldl && work != ddl && work != symBuf
    requires symBuf != lfc && symBuf != ldl && symBuf != dfc && symBuf != ddl && symBuf != builder.heap
      && symBuf != builder.depth && symBuf != builder.blCount && lt != dt
    requires 2 * L_CODES <= lfc.Length && 2 * L_CODES <= ldl.Length && 2 * D_CODES <= dfc.Length
      && 2 * D_CODES <= ddl.Length && L_CODES <= work.Length
    requires IT.ENOUGH_LENS <= lt.Length && IT.ENOUGH_DISTS <= dt.Length
    requires Coding(k) && Holds(symBuf[..], symNext, block) && Counted(block, lfc[..], dfc[..], k)
    modifies builder, builder.heap, builder.depth, builder.blCount, lfc, ldl, dfc, ddl, lt, dt, work
    ensures ok ==> r == Symbols(block, rest, m)
    ensures Complete(L, Lens) && Complete(D, Dists) && FlateCode.Lengths(L) && FlateCode.Lengths(D)
    ensures !ok ==> TooLarge(L, Lens, 9) || TooLarge(D, Dists, 6)
    ensures old(Occurring(block, lfc[..], dfc[..], k)) ==>
      && sent == optLen && AllSendable(block, StaticL(), StaticD(), k)
      && staticLen == SentBits(block, StaticL(), StaticD(), k)
      && (cut == 0 && |block| < 0x8000 ==> FewestBits(block, k, sent))
  {
    hide *;
    Sizes();
    builder.ArraysDiffer(lfc, ldl);
    builder.ArraysDiffer(dfc, ddl);
    RangesOf(builder, dfc);
    BothDescribed();
    ghost var lf, df := lfc[..], dfc[..];
    var ltree, lopt, lstat, lcut := MakeTree(builder, lfc, ldl, L_CODES, Lens, LDesc());
    RangesAgain(builder, dfc, df);
    assert ltree.len == ldl[..|ltree.len|];
    var dtree, dopt, dstat, dcut := MakeTree(builder, dfc, ddl, D_CODES, Dists, DDesc());
    optLen, staticLen, cut, L, D := lopt + dopt, lstat + dstat, lcut + dcut, ltree.len, dtree.len;
    CountedSendable(block, lf, df, k, ltree.len, dtree.len);
    var b := new BitBuffer();
    CompressBlock(b, symBuf, symNext, ltree, dtree, k, block);
    sent := b.Size();
    if Occurring(block, lf, df, k) {
      LengthsIn(ldl[..], ltree.len, L_CODES);
      LengthsIn(ddl[..], dtree.len, D_CODES);
      TotalCosts(block, lf, df, k, ltree.len, dtree.len, ldl[..], ddl[..], lopt, lstat, dopt, dstat);
      if |block| < 0x8000 {
        Fewest(block, lf, df, k, ldl[..], ddl[..], lopt, lstat, dopt, dstat, lcut, dcut);
      }
    }
    var lbits, dbits;
    ok, lbits := Tabled(Lens, ldl, |ltree.len|, lt, 9, work);
    if !ok { r := NeedBits; return; }
    ghost var ltab := lt[..];
    ok, dbits := Tabled(Dists, ddl, |dtree.len|, dt, 6, work);
    if !ok { r := NeedBits; return; }
    assert lt[..] == ltab;
    FromNothing(Sent(block, ltree.len, dtree.len, k, rest));
    r := InflateBlock(lt, lbits, dt, dbits, Put(b.Value(), b.Size(), rest), b.Size() + m, ltree.len, dtree.len);
    BlockBack(lt[..], lbits, ltree.len, dt[..], dbits, dtree.len, block, k, rest, m);
  }

  lemma BothDescribed()
    ensures Described(LDesc(), L_CODES) && NoneAtFirst(LDesc())
    ensures Described(DDesc(), D_CODES) && NoneAtFirst(DDesc())
  {
  }

  lemma LengthsIn(lens: seq<int>, L: seq<int>, elems: int)
    requires |L| <= |lens| && lens[..|L|] == L && elems <= |lens|
    ensures LengthsOf(lens, L, elems)
  {
    forall s {:trigger L[s]} | 0 <= s < |L| && s < elems ensures lens[s] == L[s] { assert lens[..|L|][s] == lens[s]; }
  }

  lemma CostsAre(freq: seq<int>, lens: seq<int>, d: Desc, elems: int, opt: int, stat: int)
    requires Costs(freq, lens, d, elems, opt, stat)
    ensures 0 <= elems <= |freq| && elems <= |lens| && elems <= |freq[..elems]|
      && (d.stree != [] ==> elems <= |d.stree|)
    ensures opt == BlockBits(freq[..elems], lens, d, elems)
    ensures d.stree != [] ==> stat == BlockBits(freq[..elems], d.stree, d, elems)
  {
    hide BlockBits;
    SameBits(freq, freq[..elems], lens, d, elems);
    if d.stree != [] { SameBits(freq, freq[..elems], d.stree, d, elems); }
  }

  /** What the trees cost is what is sent; and the static lengths cost what would be sent with them. */
  lemma TotalCosts(block: seq<Symbol>, lf: seq<int>, df: seq<int>, k: Coder, L: seq<int>, D: seq<int>, lens: seq<int>,
                   dlens: seq<int>, lopt: int, lstat: int, dopt: int, dstat: int)
    requires Coding(k) && Occurring(block, lf, df, k) && AllSendable(block, L, D, k)
    requires LengthsOf(lens, L, L_CODES) && LengthsOf(dlens, D, D_CODES)
    requires Costs(lf, lens, LDesc(), L_CODES, lopt, lstat) && Costs(df, dlens, DDesc(), D_CODES, dopt, dstat)
    ensures SentBits(block, L, D, k) == lopt + dopt
    ensures AllSendable(block, StaticL(), StaticD(), k)
    ensures SentBits(block, StaticL(), StaticD(), k) == lstat + dstat
  {
    hide *;
    StaticTrees();
    assert StaticL() != [] && StaticD() != [];
    CostsAre(lf, lens, LDesc(), L_CODES, lopt, lstat);
    CostsAre(df, dlens, DDesc(), D_CODES, dopt, dstat);
    OccurringIs(block, lf, df, k);
    SentBitsAre(block, L, D, lens, dlens, k);
    StaticSendable(block, k);
    SentBitsAre(block, StaticL(), StaticD(), StaticL(), StaticD(), k);
  }

  /** No codes whose lengths suit the block's frequencies would send it in fewer bits. */
  ghost predicate FewestBits(block: seq<Symbol>, k: Coder, bits: int)
    requires Coding(k) && AllInRange(block, k)
  {
    forall L: seq<int>, D: seq<int>, a: nat, b: nat
      {:trigger Suits(LitFreq(block, k), L, a, L_CODES), Suits(DistFreq(block, k), D, b, D_CODES)} ::
      (Suits(LitFreq(block, k), L, a, L_CODES) && Suits(DistFreq(block, k), D, b, D_CODES)
        && AllSendable(block, L, D, k)) ==>
        bits <= SentBits(block, L, D, k)
  }

  lemma {:induction false} AllFreqMore(f: seq<int>, y: int, n: nat)
    requires n <= |f| && 0 <= y < |f|
    ensures AllFreq(f[y := f[y] + 1], n) == AllFreq(f, n) + if y < n then 1 else 0
    decreases n
  {
    if n > 0 { AllFreqMore(f, y, n - 1); }
  }

  lemma {:induction false} AllFreqNone(f: seq<int>, n: nat)
    requires n <= |f| && forall y {:trigger f[y]} :: 0 <= y < n ==> f[y] == 0
    ensures AllFreq(f, n) == 0
    decreases n
  {
    if n > 0 { AllFreqNone(f, n - 1); }
  }

  /** There is a frequency for each symbol and the end of the block, and one for each match. */
  lemma {:induction false} FreqTotals(block: seq<Symbol>, k: Coder)
    requires Coding(k) && AllInRange(block, k)
    ensures AllFreq(LitFreq(block, k), L_CODES) == |block| + 1
    ensures AllFreq(DistFreq(block, k), D_CODES) <= |block|
    decreases |block|
  {
    hide Coding, InRange, LitCode, DistCode, AllFreq;
    if block == [] {
      var f := seq(L_CODES, s => 0);
      AllFreqNone(f, L_CODES);
      AllFreqMore(f, END_BLOCK, L_CODES);
      assert LitFreq([], k) == f[END_BLOCK := f[END_BLOCK] + 1];
      AllFreqNone(DistFreq([], k), D_CODES);
    } else {
      var less, sym := block[..|block| - 1], block[|block| - 1];
      assert block == less + [sym];
      FreqTotals(less, k);
      LitFreqIs(less, k, sym);
      DistFreqIs(less, k, sym);
      AllFreqMore(LitFreq(less, k), LitCode(sym, k), L_CODES);
      if sym.Match? { AllFreqMore(DistFreq(less, k), DistCode(sym, k), D_CODES); }
    }
  }

  lemma {:induction false} AllFreqSame(f: seq<int>, g: seq<int>, n: nat)
    requires n <= |f| && n <= |g| && forall y {:trigger g[y]} :: 0 <= y < n ==> g[y] == f[y]
    ensures AllFreq(g, n) == AllFreq(f, n)
    decreases n
  {
    if n > 0 {
      AllFreqSame(f, g, n - 1);
      assert g[n - 1] == f[n - 1];
    }
  }

  /** The best lengths for all frequencies of an array are the best for those of the block. */
  lemma BestForBlock(freq: seq<int>, f: seq<int>, lens: seq<int>, d: Desc, elems: nat, max: nat, cut: int)
    requires BestLengths(freq, lens, d, elems, max, cut) && elems <= |freq| && f == freq[..elems]
    requires cut == 0 && AllFreq(f, elems) < WRAP16
    ensures Cheapest(f, lens, d, elems)
  {
    hide Cheapest, AllFreq;
    forall y {:trigger f[y]} | 0 <= y < elems ensures f[y] == freq[y] { }
    AllFreqSame(freq, f, elems);
    CheapestSame(freq, f, lens, d, elems);
  }

  lemma NotCut(freq: seq<int>, lens: seq<int>, d: Desc, elems: int, max: nat, cut: int)
    requires BestLengths(freq, lens, d, elems, max, cut)
    ensures 0 <= cut && WRAP16 == 0x1_0000
  {
  }

  lemma Fewest(block: seq<Symbol>, lf: seq<int>, df: seq<int>, k: Coder, lens: seq<int>, dlens: seq<int>, lopt: int,
               lstat: int, dopt: int, dstat: int, lcut: int, dcut: int)
    requires Coding(k) && Occurring(block, lf, df, k) && |block| < 0x8000
    requires Costs(lf, lens, LDesc(), L_CODES, lopt, lstat) && Costs(df, dlens, DDesc(), D_CODES, dopt, dstat)
    requires BestLengths(lf, lens, LDesc(), L_CODES, 15, lcut) && BestLengths(df, dlens, DDesc(), D_CODES, 15, dcut)
    ensures AllInRange(block, k) && (lcut + dcut == 0 ==> FewestBits(block, k, lopt + dopt))
  {
    hide *;
    OccurringIs(block, lf, df, k);
    Sizes();
    NotCut(lf, lens, LDesc(), L_CODES, 15, lcut);
    NotCut(df, dlens, DDesc(), D_CODES, 15, dcut);
    if lcut + dcut == 0 {
      var f, g := LitFreq(block, k), DistFreq(block, k);
      FreqTotals(block, k);
      BestForBlock(lf, f, lens, LDesc(), L_CODES, 15, lcut);
      BestForBlock(df, g, dlens, DDesc(), D_CODES, 15, dcut);
      CostsAre(lf, lens, LDesc(), L_CODES, lopt, lstat);
      CostsAre(df, dlens, DDesc(), D_CODES, dopt, dstat);
      FewestFrom(block, k, f, g, lens, dlens, lopt, dopt);
    }
  }

  lemma FewestFrom(block: seq<Symbol>, k: Coder, f: seq<int>, g: seq<int>, lens: seq<int>, dlens: seq<int>, lopt: int,
                   dopt: int)
    requires Coding(k) && AllInRange(block, k) && f == LitFreq(block, k) && g == DistFreq(block, k)
    requires L_CODES <= |lens| && D_CODES <= |dlens|
    requires Cheapest(f, lens, LDesc(), L_CODES) && Cheapest(g, dlens, DDesc(), D_CODES)
    requires lopt == BlockBits(f, lens, LDesc(), L_CODES) && dopt == BlockBits(g, dlens, DDesc(), D_CODES)
    ensures FewestBits(block, k, lopt + dopt)
  {
    hide Coding, BlockBits, SentBits, LitFreq, DistFreq, InRange, AllSendable, Suits;
    forall L: seq<int>, D: seq<int>, a: nat, b: nat
      {:trigger Suits(LitFreq(block, k), L, a, L_CODES), Suits(DistFreq(block, k), D, b, D_CODES)} |
      Suits(LitFreq(block, k), L, a, L_CODES) && Suits(DistFreq(block, k), D, b, D_CODES)
      && AllSendable(block, L, D, k)
      ensures lopt + dopt <= SentBits(block, L, D, k)
    {
      SuitsSizes(f, L, a, L_CODES);
      SuitsSizes(g, D, b, D_CODES);
      SentBitsAre(block, L, D, L, D, k);
    }
  }

  lemma SuitsSizes(f: seq<int>, L: seq<int>, max: nat, n: nat)
    requires Suits(f, L, max, n)
    ensures n <= |L| && LengthsOf(L, L, n)
  {
    hide OccurringRoom;
  }

  lemma Sizes()
    ensures L_CODES == 286 && D_CODES == 30 && SymbolLimit(Lens) == 288 && SymbolLimit(Dists) == 32 && MAX_BITS == 15
    ensures IT.Limit(Lens, 9) == IT.ENOUGH_LENS == 852 && IT.ENOUGH_DISTS == 592
      && IT.Limit(Dists, 6) == IT.ENOUGH_DISTS
  {
  }

  lemma RangesOf(builder: TreeBuilder, fc: array<int>)
    requires builder.Ranges(fc)
    ensures forall x {:trigger fc[..][x]} :: 0 <= x < |fc[..]| ==> 0 <= fc[..][x] < 0x10000
  {
  }

  lemma RangesAgain(builder: TreeBuilder, fc: array<int>, freq: seq<int>)
    requires builder.DepthsFit() && fc[..] == freq && forall x {:trigger freq[x]} ::
      0 <= x < |freq| ==> 0 <= freq[x] < 0x10000
    ensures builder.Ranges(fc)
  {
    forall x {:trigger fc[x]} | 0 <= x < fc.Length ensures 0 <= fc[x] < 0x10000 { assert fc[x] == freq[x]; }
  }

  lemma FromNothing(h: nat)
    ensures Put(0, 0, h) == h
  {
  }
}
