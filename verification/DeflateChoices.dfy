/**
 What the greedy and the lazy compressor choose: every turn of their loops with the search it made, the symbol it sent,
 and the turn that follows (dep/zlib/deflate.c:1877-2102).
 */
module DeflateChoices {
  import opened HashKey
  import opened DeflateState
  import opened LzWindow
  import opened Powers

  const TOO_FAR := 4096

  datatype Config = Config(maxLazy: int, goodMatch: int, niceMatch: int, maxChain: int, filtered: bool)

  /**
   One turn. v is the state before it; available, length and dist are the byte and the match put off at the byte before;
   seen and best are the strings looked at and the longest match of them; found and back are the match that counts.
   */
  datatype Turn =
    | Lazily(v: View, available: bool, length: int, dist: int, seen: seq<int>, best: int, found: int, back: int)
    | Greedily(v: View, seen: seq<int>, best: int, found: int, back: int)
    | Ended(at: int, available: bool, c: int)

  /** Where the compressor is in the text, and what is put off there. */
  datatype Mark = Mark(at: int, available: bool, length: int, dist: int)

  // ----- the search -------------------------------------------------------------------------------------------------

  /** The key of the string to look up. */
  ghost function StringKey(v: View, ps: Params): (k: nat)
    requires Stream(v, ps) && v.lookahead >= MIN_MATCH
    ensures k < |v.head| && 0 <= Slot(v.strstart, ps.wsize) < |v.prev|
  {
    StringKeyFits(v, ps);
    KeyAt(v.window, v.strstart, ps)
  }

  lemma StringKeyFits(v: View, ps: Params)
    requires Stream(v, ps) && v.lookahead >= MIN_MATCH
    ensures 0 <= v.strstart && v.strstart + 2 < |v.window| && ByteWindow(v.window, ps.wsize)
    ensures KeyAt(v.window, v.strstart, ps) < |v.head| && 0 <= Slot(v.strstart, ps.wsize) < |v.prev|
  {
    hide Windowed;
    WindowedSizes(v.window, v.head, v.prev, v.owner, v.front, v.text, v.base, v.strstart + v.lookahead, ps);
  }

  /** The newest string with the key of this one, before this one is inserted. */
  ghost function HeadFor(v: View, ps: Params): int
    requires Stream(v, ps)
  {
    hide *;
    if v.lookahead >= MIN_MATCH then v.head[StringKey(v, ps)] else NIL
  }

  /** The links with this string's. */
  ghost function LinksFor(v: View, ps: Params): seq<int>
    requires Stream(v, ps)
  {
    hide *;
    if v.lookahead >= MIN_MATCH then
      var h := v.head[StringKey(v, ps)];
      v.prev[Slot(v.strstart, ps.wsize) := h]
    else v.prev
  }

  /** There is a string to look at, and it is near enough. */
  ghost predicate Due(v: View, ps: Params)
    requires Stream(v, ps)
  {
    HeadFor(v, ps) != NIL && v.strstart - HeadFor(v, ps) <= MaxDist(ps)
  }

  /** How many strings may be looked at: a quarter when the match put off is good. */
  function Chain(c: Config, length: int): int {
    if length >= c.goodMatch then c.maxChain / 4 else c.maxChain
  }

  function Nice(c: Config, lookahead: int): int {
    if c.niceMatch > lookahead then lookahead else c.niceMatch
  }

  /**
   A search for something longer than length: none of the strings looked at matches for more than best, it ended for one
   of its reasons, and best, if it is longer, is the length of a match that far back.
   */
  ghost predicate SearchedFor(v: View, ps: Params, c: Config, length: int, seen: seq<int>, best: int, back: int)
    requires Stream(v, ps)
  {
    && length <= best <= MAX_MATCH && |seen| <= Chain(c, length)
    && Searched(v.window, LinksFor(v, ps), ps.wsize, v.strstart, HeadFor(v, ps), seen, best, Limit(v.strstart, ps))
    && SearchDone(LinksFor(v, ps), ps.wsize, seen, best, Chain(c, length), Nice(c, v.lookahead), Limit(v.strstart, ps))
    && (best > length ==> SameBytes(v.window, v.strstart, v.strstart - back, best) && back <= MaxDist(ps))
  }

  function Least(a: int, b: int): int {
    if a <= b then a else b
  }

  /** A short match does not count if the data is filtered, and one of three bytes not if it is far back. */
  function Counts(c: Config, length: int, back: int): int {
    if length <= 5 && (c.filtered || (length == MIN_MATCH && back > TOO_FAR)) then MIN_MATCH - 1 else length
  }

  /** The match that counts is the one the search found, and none if no search was due. */
  ghost predicate Fair(t: Turn, ps: Params, c: Config, text: seq<int>) {
    match t
    case Lazily(v, available, length, _, seen, best, found, back) =>
      && Stream(v, ps) && v.text <= text && (available ==> 0 < v.base + v.strstart <= |v.text|)
      && if Due(v, ps) && length < c.maxLazy then
           SearchedFor(v, ps, c, length, seen, best, back) && found == Counts(c, Least(best, v.lookahead), back)
         else found == MIN_MATCH - 1
    case Greedily(v, seen, best, found, back) =>
      && Stream(v, ps) && v.text <= text && 0 <= v.base + v.strstart < |v.text|
      && if Due(v, ps) then SearchedFor(v, ps, c, MIN_MATCH - 1, seen, best, back) && found == Least(best, v.lookahead)
         else found < MIN_MATCH
    case Ended(at, available, b) => 0 <= at <= |text| && (available ==> 0 < at && text[at - 1] == b)
  }

  // ----- what is sent -----------------------------------------------------------------------------------------------

  /** The match put off goes out: it is one, and the match that counts is no longer. */
  predicate Sends(length: int, found: int) {
    length >= MIN_MATCH && found <= length
  }

  function ByteAt(text: seq<int>, i: int): int {
    if 0 <= i < |text| then text[i] else 0
  }

  function Emits(t: Turn): seq<Symbol> {
    match t
    case Lazily(v, available, length, dist, _, _, found, _) =>
      if Sends(length, found) then [Match(dist, length)]
      else if available then [Literal(ByteAt(v.text, v.base + v.strstart - 1))]
      else []
    case Greedily(v, _, _, found, back) =>
      if found >= MIN_MATCH then [Match(back, found)] else [Literal(ByteAt(v.text, v.base + v.strstart))]
    case Ended(_, available, b) => if available then [Literal(b)] else []
  }

  function Before(t: Turn): Mark {
    match t
    case Lazily(v, available, length, dist, _, _, _, _) => Mark(v.base + v.strstart, available, length, dist)
    case Greedily(v, _, _, _, _) => Mark(v.base + v.strstart, false, MIN_MATCH - 1, 0)
    case Ended(at, available, _) => Mark(at, available, MIN_MATCH - 1, 0)
  }

  /** Past the match that went out, or one byte on with this byte and its match put off. */
  function After(t: Turn): Mark {
    match t
    case Lazily(v, _, length, _, _, _, found, back) =>
      if Sends(length, found) then Mark(v.base + v.strstart - 1 + length, false, MIN_MATCH - 1, 0)
      else Mark(v.base + v.strstart + 1, true, found, back)
    case Greedily(v, _, _, found, _) =>
      Mark(v.base + v.strstart + (if found >= MIN_MATCH then found else 1), false, MIN_MATCH - 1, 0)
    case Ended(at, _, _) => Mark(at, false, MIN_MATCH - 1, 0)
  }

  /** The same, but for lengths that are none. */
  predicate Meets(m: Mark, n: Mark) {
    && m.at == n.at && m.available == n.available
    && (m.length >= MIN_MATCH || n.length >= MIN_MATCH ==> m.length == n.length && m.dist == n.dist)
  }

  function Start(): Mark {
    Mark(0, false, MIN_MATCH - 1, 0)
  }

  /** The turns follow one another from the start of the text to this mark, each of them fair. */
  ghost predicate Chosen(turns: seq<Turn>, ps: Params, c: Config, text: seq<int>, now: Mark) {
    if turns == [] then Meets(Start(), now)
    else
      var t := turns[|turns| - 1];
      Fair(t, ps, c, text) && Chosen(turns[..|turns| - 1], ps, c, text, Before(t)) && Meets(After(t), now)
  }

  /** What the turns sent, in order. */
  function Symbols(turns: seq<Turn>): seq<Symbol> {
    if turns == [] then [] else Symbols(turns[..|turns| - 1]) + Emits(turns[|turns| - 1])
  }

  /** One turn more. */
  lemma TurnMore(turns: seq<Turn>, t: Turn, ps: Params, c: Config, text: seq<int>, was: Mark, now: Mark)
    requires Chosen(turns, ps, c, text, was) && Fair(t, ps, c, text) && Meets(was, Before(t)) && Meets(After(t), now)
    ensures Chosen(turns + [t], ps, c, text, now) && Symbols(turns + [t]) == Symbols(turns) + Emits(t)
  {
    assert (turns + [t])[..|turns|] == turns;
    ChosenMeets(turns, ps, c, text, was, Before(t));
    hide Fair, Emits, After, Before;
  }

  lemma ChosenMeets(turns: seq<Turn>, ps: Params, c: Config, text: seq<int>, m: Mark, n: Mark)
    requires Chosen(turns, ps, c, text, m) && Meets(m, n)
    ensures Chosen(turns, ps, c, text, n)
  {
    hide Fair, After, Before;
  }

  /** More text changes nothing. */
  lemma {:induction false} ChosenGrows(turns: seq<Turn>, ps: Params, c: Config, text: seq<int>, now: Mark,
    more: seq<int>)
    requires Chosen(turns, ps, c, text, now) && text <= more
    ensures Chosen(turns, ps, c, more, now)
    decreases |turns|
  {
    if turns != [] {
      var t := turns[|turns| - 1];
      ChosenGrows(turns[..|turns| - 1], ps, c, text, Before(t), more);
      FairGrows(t, ps, c, text, more);
    }
    hide Fair, After, Before;
  }

  lemma FairGrows(t: Turn, ps: Params, c: Config, text: seq<int>, more: seq<int>)
    requires Fair(t, ps, c, text) && text <= more
    ensures Fair(t, ps, c, more)
  {
    hide Stream, Due, SearchedFor, Counts;
  }

  // ----- the rule ---------------------------------------------------------------------------------------------------

  lemma {:induction false} EachFair(turns: seq<Turn>, ps: Params, c: Config, text: seq<int>, now: Mark, i: nat)
    requires Chosen(turns, ps, c, text, now) && i < |turns|
    ensures Fair(turns[i], ps, c, text)
    ensures i > 0 ==> Meets(After(turns[i - 1]), Before(turns[i]))
    ensures Chosen(turns[..i], ps, c, text, Before(turns[i]))
    decreases |turns|
  {
    hide Fair, After, Before, Meets;
    var less := turns[..|turns| - 1];
    if i < |less| {
      EachFair(less, ps, c, text, Before(turns[|less|]), i);
      assert less[..i] == turns[..i];
    } else if i > 0 {
      assert less[|less| - 1] == turns[i - 1];
    }
  }

  /**
   Lazy evaluation. With a match of length L put off at byte p, and M the length of the one searched for at p + 1: a
   match is sent for p exactly when L is at least 3 and M is no longer; it is the one put off, and the next turn is
   past it. Else the byte at p is sent by itself, and the next turn has the match of length M put off at p + 1.
   */
  lemma LazyRule(turns: seq<Turn>, ps: Params, c: Config, text: seq<int>, now: Mark, i: nat)
    requires Chosen(turns, ps, c, text, now) && i < |turns| && turns[i].Lazily? && turns[i].available
    ensures var t := turns[i]; var p := t.v.base + t.v.strstart - 1;
      && 0 <= p < |t.v.text| && t.v.text <= text && Fair(t, ps, c, text)
      && (Emits(t) == [Match(t.dist, t.length)] <==> t.length >= MIN_MATCH && t.found <= t.length)
      && (Emits(t) == [Literal(text[p])] <==> t.length < MIN_MATCH || t.found > t.length)
      && (i + 1 < |turns| ==>
           if t.length >= MIN_MATCH && t.found <= t.length then Before(turns[i + 1]).at == p + t.length
           else
             Before(turns[i + 1]).at == p + 2 && Before(turns[i + 1]).available
             && (t.found >= MIN_MATCH ==> Before(turns[i + 1]).length == t.found && Before(turns[i + 1]).dist == t.back)
             && (t.found < MIN_MATCH ==> Before(turns[i + 1]).length < MIN_MATCH))
  {
    hide *;
    var t := turns[i];
    EachFair(turns, ps, c, text, now, i);
    LazyTurn(t);
    LazyPlace(t, ps, c, text);
    MatchSizes();
    if i + 1 < |turns| {
      EachFair(turns, ps, c, text, now, i + 1);
      MeetsMeans(After(t), Before(turns[i + 1]));
    }
  }

  /** The byte put off is one of the text. */
  lemma LazyPlace(t: Turn, ps: Params, c: Config, text: seq<int>)
    requires t.Lazily? && t.available && Fair(t, ps, c, text)
    ensures var p := t.v.base + t.v.strstart - 1;
      0 <= p < |t.v.text| && t.v.text <= text && ByteAt(t.v.text, p) == text[p]
  {
    hide Stream, Due, SearchedFor, Counts;
  }

  lemma GreedyPlace(t: Turn, ps: Params, c: Config, text: seq<int>)
    requires t.Greedily? && Fair(t, ps, c, text)
    ensures var p := t.v.base + t.v.strstart;
      0 <= p < |t.v.text| && t.v.text <= text && ByteAt(t.v.text, p) == text[p]
  {
    hide Stream, Due, SearchedFor;
  }

  lemma MeetsMeans(m: Mark, n: Mark)
    requires Meets(m, n)
    ensures m.at == n.at && m.available == n.available
    ensures m.length >= MIN_MATCH || n.length >= MIN_MATCH ==> m.length == n.length && m.dist == n.dist
  {
  }

  /** Greedy evaluation: a match of three bytes or more goes out at once, for the byte it starts at. */
  lemma GreedyRule(turns: seq<Turn>, ps: Params, c: Config, text: seq<int>, now: Mark, i: nat)
    requires Chosen(turns, ps, c, text, now) && i < |turns| && turns[i].Greedily?
    ensures var t := turns[i]; var p := t.v.base + t.v.strstart;
      && 0 <= p < |t.v.text| && t.v.text <= text && Fair(t, ps, c, text)
      && Emits(t) == [if t.found >= MIN_MATCH then Match(t.back, t.found) else Literal(text[p])]
      && (i + 1 < |turns| ==> Before(turns[i + 1]).at == p + if t.found >= MIN_MATCH then t.found else 1)
  {
    hide *;
    var t := turns[i];
    EachFair(turns, ps, c, text, now, i);
    GreedyTurn(t);
    GreedyPlace(t, ps, c, text);
    if i + 1 < |turns| {
      EachFair(turns, ps, c, text, now, i + 1);
      MeetsMeans(After(t), Before(turns[i + 1]));
    }
  }

  lemma GreedyTurn(t: Turn)
    requires t.Greedily?
    ensures Before(t) == Mark(t.v.base + t.v.strstart, false, MIN_MATCH - 1, 0) && MIN_MATCH == 3
    ensures After(t)
      == Mark(t.v.base + t.v.strstart + (if t.found >= MIN_MATCH then t.found else 1), false, MIN_MATCH - 1, 0)
    ensures Emits(t) ==
      if t.found >= MIN_MATCH then [Match(t.back, t.found)]
      else [Literal(ByteAt(t.v.text, t.v.base + t.v.strstart))]
  {
  }

  lemma LazyTurn(t: Turn)
    requires t.Lazily?
    ensures Before(t) == Mark(t.v.base + t.v.strstart, t.available, t.length, t.dist) && MIN_MATCH == 3
    ensures After(t) ==
      if Sends(t.length, t.found) then Mark(t.v.base + t.v.strstart - 1 + t.length, false, MIN_MATCH - 1, 0)
      else Mark(t.v.base + t.v.strstart + 1, true, t.found, t.back)
    ensures Emits(t) ==
      if Sends(t.length, t.found) then [Match(t.dist, t.length)]
      else if t.available then [Literal(ByteAt(t.v.text, t.v.base + t.v.strstart - 1))]
      else []
    ensures Sends(t.length, t.found) <==> t.length >= MIN_MATCH && t.found <= t.length
  {
  }

  lemma MeetsFrom(m: Mark, n: Mark)
    requires m.at == n.at && m.available == n.available && m.length == n.length
    requires m.length >= MIN_MATCH ==> m.dist == n.dist
    ensures Meets(m, n)
  {
  }

  lemma LeastIs(a: int, b: int)
    ensures Least(a, b) == if a <= b then a else b
  {
  }

  lemma CountsIs(c: Config, length: int, back: int)
    ensures Counts(c, length, back) ==
      if length <= 5 && (c.filtered || (length == MIN_MATCH && back > TOO_FAR)) then MIN_MATCH - 1 else length
  {
  }

  /** The end of the input, with no match put off. */
  lemma EndFair(t: Turn, ps: Params, c: Config, text: seq<int>)
    requires t.Ended? && 0 <= t.at <= |text| && (t.available ==> 0 < t.at) && t.c == ByteAt(text, t.at - 1)
    ensures Fair(t, ps, c, text) && Emits(t) == if t.available then [Literal(t.c)] else []
    ensures Before(t) == Mark(t.at, t.available, MIN_MATCH - 1, 0) && After(t) == Mark(t.at, false, MIN_MATCH - 1, 0)
  {
  }

  lemma MeetsShort(m: Mark, n: Mark)
    requires m.at == n.at && m.available == n.available && m.length < MIN_MATCH && n.length < MIN_MATCH
    ensures Meets(m, n)
  {
  }

  lemma MatchSizes()
    ensures MIN_MATCH == 3 && MAX_MATCH == 258 && MIN_LOOKAHEAD == 262
  {
  }

  lemma MeetsItself(m: Mark)
    ensures Meets(m, m)
  {
  }
}
