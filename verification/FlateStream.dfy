/**
 The bits of a deflate block: the symbols as compress_block sends them and as inflate reads them back
 (dep/zlib/trees.c:180-223, 1042-1092; dep/zlib/inflate.c:1062-1168). A stream is a number, its first bit the lowest.
 */
module FlateStream {
  import opened BitBuffer
  import opened FlateCode
  import opened LengthCodes
  import opened LzWindow
  import opened Powers
  import opened TableBuilding
  import opened TableDecoding
  import IT = InflateTable

  const END_BLOCK := 256

  /** The tables of length and distance codes. */
  datatype Coder = Coder(lcode: seq<int>, lbase: seq<int>, dcode: seq<int>, dbase: seq<int>)

  ghost predicate Coding(k: Coder) {
    LengthsBelow(k.lcode, k.lbase, 256, 29) && DistancesBelow(k.dcode, k.dbase, 32768, 30)
  }

  ghost predicate Complete(lens: seq<int>, t: CodeType) {
    Fits(lens, t) && Used(CountsOf(lens), MAX_BITS) == Pow2(MAX_BITS)
  }

  /** The symbol has the codes it needs. */
  ghost predicate Sendable(sym: Symbol, L: seq<int>, D: seq<int>, k: Coder)
    requires Coding(k)
  {
    match sym
    case Literal(c) => 0 <= c < 256 && Present(L, c)
    case Match(dist, len) =>
      && MIN_MATCH <= len <= MAX_MATCH && 1 <= dist <= 32768
      && 0 <= k.lcode[len - 3] < 29 && 0 <= Place(dist - 1) < 512 && 0 <= k.dcode[Place(dist - 1)] < 30
      && Present(L, 257 + k.lcode[len - 3]) && Present(D, k.dcode[Place(dist - 1)])
  }

  ghost predicate AllSendable(syms: seq<Symbol>, L: seq<int>, D: seq<int>, k: Coder)
    requires Coding(k)
  {
    Present(L, END_BLOCK) && forall i {:trigger syms[i]} :: 0 <= i < |syms| ==> Sendable(syms[i], L, D, k)
  }

  ghost function SentCode(lens: seq<int>, s: int, rest: nat): nat
    requires Present(lens, s)
  {
    Put(Value(lens, s), lens[s], rest)
  }

  /** The extra bits of a length. */
  ghost function LengthRest(lc: int, c: int, base: int): (r: nat)
    requires 0 <= c < 29 && LengthCoded(lc, c, base)
    ensures |EXTRA_LBITS| == 29 && r < Pow2(EXTRA_LBITS[c])
  {
    if EXTRA_LBITS[c] == 0 then 0 else lc - base
  }

  ghost function SentMatch(dist: int, len: int, L: seq<int>, D: seq<int>, k: Coder, rest: nat): nat
    requires Coding(k) && Sendable(Match(dist, len), L, D, k)
  {
    hide *;
    MatchCodes(dist, len, L, D, k);
    var c, d := k.lcode[len - 3], k.dcode[Place(dist - 1)];
    SentCode(L, 257 + c, Put(LengthRest(len - 3, c, k.lbase[c]), EXTRA_LBITS[c],
                             SentCode(D, d, Put(dist - 1 - k.dbase[d], EXTRA_DBITS[d], rest))))
  }

  lemma CodedParts(k: Coder, dist: int, len: int)
    requires Coding(k) && MIN_MATCH <= len <= MAX_MATCH && 1 <= dist <= 32768
    ensures 0 <= len - 3 < |k.lcode| && 0 <= Place(dist - 1) < |k.dcode|
    ensures var c, d := k.lcode[len - 3], k.dcode[Place(dist - 1)];
      && 0 <= c < 29 == |k.lbase| == |EXTRA_LBITS| && 0 <= d < 30 == |k.dbase| == |EXTRA_DBITS|
      && LengthCoded(len - 3, c, k.lbase[c]) && DistanceCoded(dist - 1, d, k.dbase[d])
      && 0 <= dist - 1 - k.dbase[d] < Pow2(EXTRA_DBITS[d])
  {
    hide LengthCoded;
    assert Place(dist - 1) < 512;
    assert k.dcode[Place(dist - 1)] < 30;
    hide Pow2;
  }

  lemma MatchCodes(dist: int, len: int, L: seq<int>, D: seq<int>, k: Coder)
    requires Coding(k) && Sendable(Match(dist, len), L, D, k)
    ensures 0 <= len - 3 < |k.lcode| && 0 <= Place(dist - 1) < |k.dcode|
    ensures var c, d := k.lcode[len - 3], k.dcode[Place(dist - 1)];
      && 0 <= c < 29 == |k.lbase| == |EXTRA_LBITS| && 0 <= d < 30 == |k.dbase| == |EXTRA_DBITS|
      && LengthCoded(len - 3, c, k.lbase[c]) && DistanceCoded(dist - 1, d, k.dbase[d])
      && 0 <= dist - 1 - k.dbase[d] && Present(L, 257 + c) && Present(D, d)
  {
    hide Code, Place, LengthCoded, DistanceCoded, EXTRA_LBITS, EXTRA_DBITS, Pow2, Coding;
    CodedParts(k, dist, len);
  }

  ghost function SentSymbol(sym: Symbol, L: seq<int>, D: seq<int>, k: Coder, rest: nat): nat
    requires Coding(k) && Sendable(sym, L, D, k)
  {
    match sym
    case Literal(c) => SentCode(L, c, rest)
    case Match(dist, len) => SentMatch(dist, len, L, D, k, rest)
  }

  /** All symbols, the end of the block, and what follows. */
  ghost function Sent(syms: seq<Symbol>, L: seq<int>, D: seq<int>, k: Coder, rest: nat): nat
    requires Coding(k) && AllSendable(syms, L, D, k)
  {
    if syms == [] then SentCode(L, END_BLOCK, rest)
    else SentSymbol(syms[0], L, D, k, Sent(syms[1..], L, D, k, rest))
  }

  ghost function SymbolBits(sym: Symbol, L: seq<int>, D: seq<int>, k: Coder): nat
    requires Coding(k) && Sendable(sym, L, D, k)
  {
    match sym
    case Literal(c) => BitsOf(L, c)
    case Match(dist, len) => MatchBits(dist, len, L, D, k)
  }

  ghost function MatchBits(dist: int, len: int, L: seq<int>, D: seq<int>, k: Coder): nat
    requires Coding(k) && Sendable(Match(dist, len), L, D, k)
  {
    hide *;
    MatchCodes(dist, len, L, D, k);
    var c, d := k.lcode[len - 3], k.dcode[Place(dist - 1)];
    BitsOf(L, 257 + c) + EXTRA_LBITS[c] + BitsOf(D, d) + EXTRA_DBITS[d]
  }

  ghost function BitsOf(lens: seq<int>, s: int): (n: nat)
    requires Present(lens, s)
    ensures n == lens[s]
  {
    lens[s]
  }

  ghost function SentBits(syms: seq<Symbol>, L: seq<int>, D: seq<int>, k: Coder): nat
    requires Coding(k) && AllSendable(syms, L, D, k)
  {
    if syms == [] then L[END_BLOCK] else SymbolBits(syms[0], L, D, k) + SentBits(syms[1..], L, D, k)
  }

  // ----- reading --------------------------------------------------------------------------------------------------

  /** Tables that find every symbol of a complete code. */
  ghost predicate Ready(table: seq<Entry>, root: nat, lens: seq<int>, t: CodeType) {
    Complete(lens, t) && forall u {:trigger lens[u]} :: 0 <= u < |lens| && lens[u] != 0 ==>
      Found(table, root, lens, t, u)
  }

  lemma ReadyLooks(table: seq<Entry>, root: nat, lens: seq<int>, t: CodeType, h: nat)
    requires Ready(table, root, lens, t)
    ensures Pow2(root) <= |table|
    ensures var here := table[h % Pow2(root)]; IsLink(here) ==>
      here.bits == root && 0 <= here.val && here.val + Pow2(here.op) <= |table|
    ensures 1 <= Lookup(table, root, h).1 && 0 <= Lookup(table, root, h).0.op
  {
    hide Found, Leaf, Code, Used, Lookup, Pow2;
    var s := IT.EveryStreamFound(table, root, lens, t, h);
    LeafOp(t, s, if lens[s] <= root then lens[s] else lens[s] - root);
  }

  lemma LeafOp(t: CodeType, s: int, bits: int)
    requires 0 <= s < SymbolLimit(t)
    ensures 0 <= Leaf(t, s, bits).op
  {
    ExtraOps(s);
    hide LEXT, DEXT, LBASE, DBASE;
  }

  lemma ExtraOps(s: int)
    ensures |LEXT| == |LBASE| == 31 && |DEXT| == |DBASE| == 32
    ensures 257 <= s < 288 ==> 0 <= LEXT[s - 257]
    ensures 0 <= s < 32 ==> 0 <= DEXT[s]
  {
  }

  /** The entry for what the stream begins with, and the bits it takes. */
  ghost function Looked(table: seq<Entry>, root: nat, lens: seq<int>, t: CodeType, h: nat): (r: (Entry, int))
    requires Ready(table, root, lens, t)
    ensures 1 <= r.1 && 0 <= r.0.op
  {
    ReadyLooks(table, root, lens, t, h);
    Lookup(table, root, h)
  }

  /** The first n bits of a stream. */
  function Bits(h: nat, n: nat): nat {
    h % Pow2(n)
  }

  /** The stream without its first n bits. */
  function Behind(h: nat, n: nat): nat {
    hide Pow2;
    NotBelow(h, Pow2(n));
    h / Pow2(n)
  }

  lemma NotBelow(h: nat, p: nat)
    requires p > 0
    ensures 0 <= h / p
  {
  }

  datatype Read = Sym(sym: Symbol, h: nat, n: nat) | End(h: nat, n: nat) | Bad | Short

  /** One symbol from a stream of which n bits are there. */
  ghost function ReadSymbol(lt: seq<Entry>, lroot: nat, L: seq<int>, dt: seq<Entry>, droot: nat, D: seq<int>, h: nat,
                            n: nat): (r: Read)
    requires Ready(lt, lroot, L, Lens) && Ready(dt, droot, D, Dists)
    ensures r.Sym? ==> r.n < n
  {
    hide Ready, Pow2;
    var (e, bits) := Looked(lt, lroot, L, Lens, h);
    if bits > n then Short
    else
      var h1, n1 := Behind(h, bits), n - bits;
      if e.op == 0 then Sym(Literal(e.val), h1, n1)
      else if e.op / 32 % 2 == 1 then End(h1, n1)
      else if e.op / 64 % 2 == 1 then Bad
      else if e.op % 16 > n1 then Short
      else ReadDistance(dt, droot, D, e.val + Bits(h1, e.op % 16), Behind(h1, e.op % 16), n1 - e.op % 16)
  }

  /** The distance that follows a length. */
  ghost function ReadDistance(dt: seq<Entry>, droot: nat, D: seq<int>, len: int, h: nat, n: nat): (r: Read)
    requires Ready(dt, droot, D, Dists)
    ensures r.Sym? ==> r.n < n
  {
    hide Ready, Pow2;
    var (e, bits) := Looked(dt, droot, D, Dists, h);
    if bits > n then Short
    else
      var h1, n1 := Behind(h, bits), n - bits;
      if e.op / 64 % 2 == 1 then Bad
      else if e.op % 16 > n1 then Short
      else Sym(Match(e.val + Bits(h1, e.op % 16), len), Behind(h1, e.op % 16), n1 - e.op % 16)
  }

  datatype Block = Symbols(syms: seq<Symbol>, h: nat, n: nat) | Corrupt | NeedBits

  /** A block up to its end. */
  ghost function ReadSymbols(lt: seq<Entry>, lroot: nat, L: seq<int>, dt: seq<Entry>, droot: nat, D: seq<int>, h: nat,
    n: nat):
    Block
    requires Ready(lt, lroot, L, Lens) && Ready(dt, droot, D, Dists)
    decreases n
  {
    match ReadSymbol(lt, lroot, L, dt, droot, D, h, n)
    case Sym(sym, h', n') =>
      (match ReadSymbols(lt, lroot, L, dt, droot, D, h', n')
       case Symbols(more, h'', n'') => Symbols([sym] + more, h'', n'')
       case other => other)
    case End(h', n') => Symbols([], h', n')
    case Bad => Corrupt
    case Short => NeedBits
  }

  // ----- the round trip ---------------------------------------------------------------------------------------------

  lemma PutTaken(v: nat, n: nat, rest: nat)
    requires v < Pow2(n)
    ensures Put(v, n, rest) % Pow2(n) == v && Bits(Put(v, n, rest), n) == v && Behind(Put(v, n, rest), n) == rest
  {
    hide Pow2;
    Times(Pow2(n), rest);
    DivIs(Put(v, n, rest), Pow2(n), rest, v);
  }

  lemma Times(a: int, b: int)
    ensures a * b == b * a
  {
  }

  /** A code that was sent is found, and what was sent behind it is left. */
  lemma CodeTaken(table: seq<Entry>, root: nat, lens: seq<int>, t: CodeType, s: int, rest: nat)
    requires Ready(table, root, lens, t) && Present(lens, s)
    ensures 0 <= s < SymbolLimit(t) && Behind(SentCode(lens, s, rest), lens[s]) == rest
    ensures Looked(table, root, lens, t, SentCode(lens, s, rest)) ==
            (Leaf(t, s, if lens[s] <= root then lens[s] else lens[s] - root), lens[s])
  {
    hide Found, Leaf, Code, Used, Lookup, Pow2, Put;
    var h := SentCode(lens, s, rest);
    PutTaken(Value(lens, s), lens[s], rest);
    assert Starts(h, lens, s);
    LooksUp(table, root, lens, t, s, h);
  }

  lemma LiteralLeaf(c: int, bits: int)
    requires 0 <= c <= 256
    ensures SymbolLimit(Lens) == 288
    ensures c < 256 ==> Leaf(Lens, c, bits) == Entry(0, bits, c)
    ensures c == 256 ==> Leaf(Lens, c, bits).op / 32 % 2 == 1 && Leaf(Lens, c, bits).op != 0
  {
  }

  lemma LengthLeaf(lc: int, c: int, base: int, bits: int)
    requires 0 <= c < 29 && LengthCoded(lc, c, base)
    ensures SymbolLimit(Lens) == 288
    ensures var e := Leaf(Lens, 257 + c, bits);
      && e.op == 16 + EXTRA_LBITS[c] && EXTRA_LBITS[c] < 16 && e.val + LengthRest(lc, c, base) == lc + 3
  {
    LengthExtra(c);
    FewExtra(c);
    hide LBASE, LEXT, EXTRA_LBITS, Pow2;
  }

  lemma FewExtra(c: int)
    requires 0 <= c < 29
    ensures |EXTRA_LBITS| == 29 && |LBASE| == |LEXT| == 31 && EXTRA_LBITS[c] < 16
  {
  }

  lemma DistanceLeaf(dist: int, d: int, base: int, bits: int)
    requires 0 <= d < 30 && DistanceCoded(dist, d, base)
    ensures SymbolLimit(Dists) == 32
    ensures var e := Leaf(Dists, d, bits);
      && e.op == 16 + EXTRA_DBITS[d] && EXTRA_DBITS[d] < 16 && e.val + (dist - base) == dist + 1
  {
    DistanceExtra(d);
    FewExtraDistance(d);
    hide DBASE, DEXT, EXTRA_DBITS, Pow2;
  }

  lemma FewExtraDistance(d: int)
    requires 0 <= d < 30
    ensures |EXTRA_DBITS| == 30 && |DBASE| == |DEXT| == 32 && EXTRA_DBITS[d] < 16
  {
  }

  /** Entries for lengths and distances are told from the others. */
  lemma OpBits(x: nat)
    requires x < 16
    ensures (16 + x) / 32 % 2 == 0 && (16 + x) / 64 % 2 == 0 && (16 + x) % 16 == x
  {
  }

  lemma LiteralBack(lt: seq<Entry>, lroot: nat, L: seq<int>, dt: seq<Entry>, droot: nat, D: seq<int>, c: int, rest: nat,
                    m: nat)
    requires Ready(lt, lroot, L, Lens) && Ready(dt, droot, D, Dists) && 0 <= c <= END_BLOCK && Present(L, c)
    ensures ReadSymbol(lt, lroot, L, dt, droot, D, SentCode(L, c, rest), BitsOf(L, c) + m) ==
            if c < END_BLOCK then Sym(Literal(c), rest, m) else End(rest, m)
  {
    hide Ready, Leaf, Code, Pow2, Looked, SentCode, ReadDistance, Behind;
    CodeTaken(lt, lroot, L, Lens, c, rest);
    LiteralLeaf(c, if L[c] <= lroot then L[c] else L[c] - lroot);
  }

  /** A distance whose entry asks for x more bits. */
  lemma DistanceRead(dt: seq<Entry>, droot: nat, D: seq<int>, len: int, h: nat, n: nat, x: nat, h1: nat, m: nat)
    requires Ready(dt, droot, D, Dists) && x < 16
    requires Looked(dt, droot, D, Dists, h).0.op == 16 + x && n == Looked(dt, droot, D, Dists, h).1 + x + m
    requires h1 == Behind(h, Looked(dt, droot, D, Dists, h).1)
    ensures ReadDistance(dt, droot, D, len, h, n) ==
            Sym(Match(Looked(dt, droot, D, Dists, h).0.val + Bits(h1, x), len), Behind(h1, x), m)
  {
    hide Ready, Looked, Bits, Behind;
    OpBits(x);
  }

  lemma DistanceBack(dt: seq<Entry>, droot: nat, D: seq<int>, dist: int, d: int, base: int, len: int, rest: nat, n: nat,
                     m: nat)
    requires Ready(dt, droot, D, Dists) && 0 <= d < 30 && DistanceCoded(dist - 1, d, base) && Present(D, d)
    requires |EXTRA_DBITS| == 30 && 0 <= dist - 1 - base && n == BitsOf(D, d) + EXTRA_DBITS[d] + m
    ensures ReadDistance(dt, droot, D, len, SentCode(D, d, Put(dist - 1 - base, EXTRA_DBITS[d], rest)), n) ==
            Sym(Match(dist, len), rest, m)
  {
    hide *;
    PresentThere(D, d);
    DistanceParts(dist, d, base);
    var extra, x: nat := EXTRA_DBITS[d], dist - 1 - base;
    var h1 := Put(x, extra, rest);
    CodeTaken(dt, droot, D, Dists, d, h1);
    DistanceLeaf(dist - 1, d, base, if D[d] <= droot then D[d] else D[d] - droot);
    PutTaken(x, extra, rest);
    DistanceRead(dt, droot, D, len, SentCode(D, d, h1), n, extra, h1, m);
  }

  lemma PresentThere(lens: seq<int>, s: int)
    requires Present(lens, s)
    ensures 0 <= s < |lens| && 1 <= lens[s] == BitsOf(lens, s)
  {
    hide Code;
  }

  lemma DistanceParts(dist: int, d: int, base: int)
    requires 0 <= d < 30 && DistanceCoded(dist - 1, d, base)
    ensures |EXTRA_DBITS| == 30 && 0 <= dist - 1 - base < Pow2(EXTRA_DBITS[d])
  {
    hide Pow2;
  }

  lemma MatchBack(lt: seq<Entry>, lroot: nat, L: seq<int>, dt: seq<Entry>, droot: nat, D: seq<int>, dist: int, len: int,
                  k: Coder, rest: nat, m: nat, h: nat, n: nat)
    requires Ready(lt, lroot, L, Lens) && Ready(dt, droot, D, Dists)
    requires Coding(k) && Sendable(Match(dist, len), L, D, k)
    requires h == SentMatch(dist, len, L, D, k, rest) && n == MatchBits(dist, len, L, D, k) + m
    ensures ReadSymbol(lt, lroot, L, dt, droot, D, h, n) == Sym(Match(dist, len), rest, m)
  {
    hide *;
    MatchParts(dist, len, L, D, k, rest);
    var c, d := k.lcode[len - 3], k.dcode[Place(dist - 1)];
    var lb, db := k.lbase[c], k.dbase[d];
    var m1: nat := BitsOf(D, d) + EXTRA_DBITS[d] + m;
    var behind := SentCode(D, d, Put(dist - 1 - db, EXTRA_DBITS[d], rest));
    LengthBack(lt, lroot, L, dt, droot, D, len, c, lb, behind, n, m1);
    DistanceBack(dt, droot, D, dist, d, db, len, rest, m1, m);
  }

  lemma MatchParts(dist: int, len: int, L: seq<int>, D: seq<int>, k: Coder, rest: nat)
    requires Coding(k) && Sendable(Match(dist, len), L, D, k)
    ensures 0 <= len - 3 < |k.lcode| && 0 <= Place(dist - 1) < |k.dcode|
    ensures var c, d := k.lcode[len - 3], k.dcode[Place(dist - 1)];
      && 0 <= c < 29 == |k.lbase| == |EXTRA_LBITS| && 0 <= d < 30 == |k.dbase| == |EXTRA_DBITS|
      && LengthCoded(len - 3, c, k.lbase[c]) && DistanceCoded(dist - 1, d, k.dbase[d])
      && Present(L, 257 + c) && Present(D, d) && 0 <= dist - 1 - k.dbase[d]
      && SentMatch(dist, len, L, D, k, rest) ==
         SentCode(L, 257 + c, Put(LengthRest(len - 3, c, k.lbase[c]), EXTRA_LBITS[c],
                                  SentCode(D, d, Put(dist - 1 - k.dbase[d], EXTRA_DBITS[d], rest))))
      && MatchBits(dist, len, L, D, k) == BitsOf(L, 257 + c) + EXTRA_LBITS[c] + BitsOf(D, d) + EXTRA_DBITS[d]
  {
    hide Code, Place, SentCode, Put, LengthRest, LengthCoded, DistanceCoded, EXTRA_LBITS, EXTRA_DBITS, BitsOf;
    CodedParts(k, dist, len);
  }

  /** A length whose entry asks for x more bits. */
  lemma LengthRead(lt: seq<Entry>, lroot: nat, L: seq<int>, dt: seq<Entry>, droot: nat, D: seq<int>, h: nat, n: nat,
                   x: nat, h1: nat, m: nat)
    requires Ready(lt, lroot, L, Lens) && Ready(dt, droot, D, Dists) && x < 16
    requires Looked(lt, lroot, L, Lens, h).0.op == 16 + x && n == Looked(lt, lroot, L, Lens, h).1 + x + m
    requires h1 == Behind(h, Looked(lt, lroot, L, Lens, h).1)
    ensures ReadSymbol(lt, lroot, L, dt, droot, D, h, n) ==
            ReadDistance(dt, droot, D, Looked(lt, lroot, L, Lens, h).0.val + Bits(h1, x), Behind(h1, x), m)
  {
    hide Ready, Looked, Bits, Behind, ReadDistance;
    OpBits(x);
  }

  /** A length that was sent is read, and its distance is read from what was sent behind it. */
  lemma LengthBack(lt: seq<Entry>, lroot: nat, L: seq<int>, dt: seq<Entry>, droot: nat, D: seq<int>, len: int, c: int,
                   base: int, behind: nat, n: nat, m: nat)
    requires Ready(lt, lroot, L, Lens) && Ready(dt, droot, D, Dists) && 0 <= c < 29 && LengthCoded(len - 3, c, base)
      && Present(L, 257 + c)
    requires |EXTRA_LBITS| == 29 && n == BitsOf(L, 257 + c) + EXTRA_LBITS[c] + m
    ensures ReadSymbol(lt, lroot, L, dt, droot, D,
                       SentCode(L, 257 + c, Put(LengthRest(len - 3, c, base), EXTRA_LBITS[c], behind)), n)
      == ReadDistance(dt, droot, D, len, behind, m)
  {
    hide *;
    FewExtra(c);
    var s := 257 + c;
    PresentThere(L, s);
    var extra, x := EXTRA_LBITS[c], LengthRest(len - 3, c, base);
    var h1 := Put(x, extra, behind);
    CodeTaken(lt, lroot, L, Lens, s, h1);
    LengthLeaf(len - 3, c, base, if L[s] <= lroot then L[s] else L[s] - lroot);
    PutTaken(x, extra, behind);
    LengthRead(lt, lroot, L, dt, droot, D, SentCode(L, s, h1), n, extra, h1, m);
  }

  /** A block read back is the symbols sent, whatever follows it and however much of that is there. */
  lemma {:induction false} BlockBack(lt: seq<Entry>, lroot: nat, L: seq<int>, dt: seq<Entry>, droot: nat, D: seq<int>,
                                     syms: seq<Symbol>, k: Coder, rest: nat, m: nat)
    requires Ready(lt, lroot, L, Lens) && Ready(dt, droot, D, Dists) && Coding(k) && AllSendable(syms, L, D, k)
    ensures ReadSymbols(lt, lroot, L, dt, droot, D, Sent(syms, L, D, k, rest), SentBits(syms, L, D, k) + m) ==
            Symbols(syms, rest, m)
    decreases |syms|
  {
    hide *;
    SentParts(syms, L, D, k, rest);
    var h0, n0 := Sent(syms, L, D, k, rest), SentBits(syms, L, D, k) + m;
    if syms == [] {
      LiteralBack(lt, lroot, L, dt, droot, D, END_BLOCK, rest, m);
      BlockEnds(lt, lroot, L, dt, droot, D, h0, n0, rest, m);
    } else {
      var sym, more := syms[0], syms[1..];
      var h, n := Sent(more, L, D, k, rest), SentBits(more, L, D, k) + m;
      SymbolBack(lt, lroot, L, dt, droot, D, sym, k, h, n, h0, n0);
      BlockBack(lt, lroot, L, dt, droot, D, more, k, rest, m);
      BlockGoesOn(lt, lroot, L, dt, droot, D, h0, n0, sym, h, n, more, rest, m);
      assert [sym] + more == syms;
    }
  }

  lemma SentParts(syms: seq<Symbol>, L: seq<int>, D: seq<int>, k: Coder, rest: nat)
    requires Coding(k) && AllSendable(syms, L, D, k)
    ensures END_BLOCK == 256 && Present(L, END_BLOCK)
    ensures syms == [] ==>
      Sent(syms, L, D, k, rest) == SentCode(L, END_BLOCK, rest) && SentBits(syms, L, D, k) == BitsOf(L, END_BLOCK)
    ensures syms != [] ==>
      Sendable(syms[0], L, D, k) && AllSendable(syms[1..], L, D, k)
      && Sent(syms, L, D, k, rest) == SentSymbol(syms[0], L, D, k, Sent(syms[1..], L, D, k, rest))
      && SentBits(syms, L, D, k) == SymbolBits(syms[0], L, D, k) + SentBits(syms[1..], L, D, k)
  {
    hide Code, Coding, Sendable, SentCode, SentSymbol, SymbolBits;
  }

  lemma SymbolBack(lt: seq<Entry>, lroot: nat, L: seq<int>, dt: seq<Entry>, droot: nat, D: seq<int>, sym: Symbol,
                   k: Coder, rest: nat, m: nat, h: nat, n: nat)
    requires Ready(lt, lroot, L, Lens) && Ready(dt, droot, D, Dists)
    requires Coding(k) && Sendable(sym, L, D, k)
    requires h == SentSymbol(sym, L, D, k, rest) && n == SymbolBits(sym, L, D, k) + m
    ensures ReadSymbol(lt, lroot, L, dt, droot, D, h, n) == Sym(sym, rest, m)
  {
    hide Ready, ReadSymbol, SentCode, SentMatch, MatchBits, BitsOf, Coding, Code;
    match sym
    case Literal(c) => LiteralBack(lt, lroot, L, dt, droot, D, c, rest, m);
    case Match(dist, len) => MatchBack(lt, lroot, L, dt, droot, D, dist, len, k, rest, m, h, n);
  }

  lemma BlockEnds(lt: seq<Entry>, lroot: nat, L: seq<int>, dt: seq<Entry>, droot: nat, D: seq<int>, h: nat, n: nat,
                  h': nat, n': nat)
    requires Ready(lt, lroot, L, Lens) && Ready(dt, droot, D, Dists)
    requires ReadSymbol(lt, lroot, L, dt, droot, D, h, n) == End(h', n')
    ensures ReadSymbols(lt, lroot, L, dt, droot, D, h, n) == Symbols([], h', n')
  {
    hide Ready, ReadSymbol;
  }

  lemma BlockGoesOn(lt: seq<Entry>, lroot: nat, L: seq<int>, dt: seq<Entry>, droot: nat, D: seq<int>, h: nat, n: nat,
                    sym: Symbol, h': nat, n': nat, more: seq<Symbol>, rest: nat, m: nat)
    requires Ready(lt, lroot, L, Lens) && Ready(dt, droot, D, Dists)
    requires ReadSymbol(lt, lroot, L, dt, droot, D, h, n) == Sym(sym, h', n')
    requires ReadSymbols(lt, lroot, L, dt, droot, D, h', n') == Symbols(more, rest, m)
    ensures ReadSymbols(lt, lroot, L, dt, droot, D, h, n) == Symbols([sym] + more, rest, m)
  {
    hide Ready, ReadSymbol;
  }
}
