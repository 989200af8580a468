/**
 The two-level move-to-front store of dep/bzip2/decompress.c: a list of 256 entries kept as sixteen
 lines of sixteen inside a larger array, each line at its own base, so that a move to the front shifts
 one line and carries one entry per earlier line. Proved equal to a plain list.
 */
module MtfStore {
  import opened MoveToFront

  const MTFA_SIZE := 4096
  const MTFL_SIZE := 16

  /** Sixteen lines in ascending order, none overlapping, none past its place after a rebuild. */
  ghost predicate Lines(base: seq<int>) {
    && |base| == 16
    && (forall m :: 0 <= m < 16 ==> 0 <= base[m] <= 3840 + 16 * m)
    && (forall m, k :: 0 <= m < k < 16 ==> base[m] + 16 <= base[k])
  }

  /** Entry q of line m. */
  ghost function At(a: seq<int>, base: seq<int>, m: int, q: int): int {
    if 0 <= m < |base| && 0 <= base[m] + q < |a| then a[base[m] + q] else 0
  }

  /** The list the store stands for. */
  ghost function ListOf(a: seq<int>, base: seq<int>): (s: seq<int>)
    ensures |s| == 256
    ensures forall m, q {:trigger At(a, base, m, q)} :: 0 <= m < 16 && 0 <= q < 16 ==>
      s[16 * m + q] == At(a, base, m, q)
  {
    var s := seq(256, p requires 0 <= p < 256 => At(a, base, p / 16, p % 16));
    assert forall m, q {:trigger At(a, base, m, q)} :: 0 <= m < 16 && 0 <= q < 16 ==>
      (16 * m + q) / 16 == m && (16 * m + q) % 16 == q;
    s
  }

  /** Two stores with the same lines stand for the same list. */
  lemma ListIs(a: seq<int>, base: seq<int>, s: seq<int>)
    requires |s| == 256
    requires forall m, q {:trigger At(a, base, m, q)} :: 0 <= m < 16 && 0 <= q < 16 ==>
      At(a, base, m, q) == s[16 * m + q]
    ensures ListOf(a, base) == s
  {
    var t := ListOf(a, base);
    forall p | 0 <= p < 256 ensures t[p] == s[p] {
      assert t[16 * (p / 16) + p % 16] == At(a, base, p / 16, p % 16);
    }
  }

  /** Entry p of the list once entry nn has moved to the front. */
  ghost function Moved(s: seq<int>, nn: int, p: int): int
    requires |s| == 256 && 0 <= nn < 256 && 0 <= p < 256
  {
    if p == 0 then s[nn] else if p <= nn then s[p - 1] else s[p]
  }

  lemma MovedIsToFront(s: seq<int>, nn: int, p: int)
    requires |s| == 256 && 0 <= nn < 256 && 0 <= p < 256
    ensures ToFront(s, nn)[p] == Moved(s, nn, p)
  {
  }

  lemma ListMoved(a: seq<int>, base: seq<int>, s: seq<int>, nn: int)
    requires |s| == 256 && 0 <= nn < 256
    requires forall m, q {:trigger At(a, base, m, q)} :: 0 <= m < 16 && 0 <= q < 16 ==>
      At(a, base, m, q) == Moved(s, nn, 16 * m + q)
    ensures ListOf(a, base) == ToFront(s, nn)
  {
    hide At, ToFront;
    forall m, q {:trigger At(a, base, m, q)} | 0 <= m < 16 && 0 <= q < 16
      ensures At(a, base, m, q) == ToFront(s, nn)[16 * m + q]
    {
      MovedIsToFront(s, nn, 16 * m + q);
    }
    ListIs(a, base, ToFront(s, nn));
  }

  // ----- the carry between lines --------------------------------------------------------------------------

  /**
   The general case under way. Lines above k are as they will be; line lno = nn / 16 has been shifted
   and its base moved up by one; lines below, and line k unless it is lno, are untouched.
   */
  ghost predicate Carrying(a0: seq<int>, base0: seq<int>, a: seq<int>, base: seq<int>, nn: int, k: int) {
    && CarryShape(a0, base0, a, base, nn, k)
    && CarriedAbove(ListOf(a0, base0), a, base, nn, k)
    && UntouchedBelow(a0, base0, a, nn, k)
    && (k == nn / 16 ==> ShiftedHere(ListOf(a0, base0), base0, a, nn, k))
  }

  ghost predicate CarryShape(a0: seq<int>, base0: seq<int>, a: seq<int>, base: seq<int>, nn: int, k: int) {
    && |a0| == |a| == MTFA_SIZE && Lines(base0) && base0[0] >= 1 && |base| == 16 && 0 <= k <= nn / 16 < 16 && nn >= 16
    && forall m {:trigger base[m]} :: 0 <= m < 16 ==> base[m] == BaseDuring(base0[m], m, nn / 16, k)
  }

  ghost predicate CarriedAbove(s: seq<int>, a: seq<int>, base: seq<int>, nn: int, k: int)
    requires |s| == 256 && 0 <= nn < 256 && 0 <= k
  {
    forall m, q {:trigger At(a, base, m, q)} :: k < m < 16 && 0 <= q < 16 ==>
      At(a, base, m, q) == Moved(s, nn, 16 * m + q)
  }

  ghost predicate UntouchedBelow(a0: seq<int>, base0: seq<int>, a: seq<int>, nn: int, k: int) {
    forall m, q {:trigger At(a, base0, m, q)} :: 0 <= m <= k && m < nn / 16 && 0 <= q < 16 ==>
      At(a, base0, m, q) == At(a0, base0, m, q)
  }

  ghost predicate ShiftedHere(s: seq<int>, base0: seq<int>, a: seq<int>, nn: int, k: int)
    requires |s| == 256 && 0 <= nn < 256 && 0 <= k < 16
  {
    forall q {:trigger At(a, base0, k, q)} :: 0 < q < 16 ==> At(a, base0, k, q) == Moved(s, nn, 16 * k + q)
  }

  lemma CarryParts(a0: seq<int>, base0: seq<int>, a: seq<int>, base: seq<int>, nn: int, k: int)
    requires Carrying(a0, base0, a, base, nn, k)
    ensures CarryShape(a0, base0, a, base, nn, k) && |a| == |a0| == MTFA_SIZE && |base| == |base0| == 16
      && 0 <= k <= nn / 16 < 16 && 16 <= nn < 256
    ensures CarriedAbove(ListOf(a0, base0), a, base, nn, k) && UntouchedBelow(a0, base0, a, nn, k)
    ensures k == nn / 16 ==> ShiftedHere(ListOf(a0, base0), base0, a, nn, k)
  {
    hide CarriedAbove, UntouchedBelow, ShiftedHere, ListOf;
  }

  /** Where line k and the place below it lie. */
  lemma CarryPlaces(a0: seq<int>, base0: seq<int>, a: seq<int>, base: seq<int>, nn: int, k: int)
    requires CarryShape(a0, base0, a, base, nn, k)
    ensures base[k] == (if k == nn / 16 then base0[k] + 1 else base0[k]) && 1 <= base0[k] <= 4080
    ensures k > 0 ==> base[k - 1] == base0[k - 1] >= 1 && base0[k - 1] + 16 <= base0[k]
  {
  }

  lemma ShapeStep(a0: seq<int>, base0: seq<int>, a: seq<int>, base: seq<int>, nn: int, k: int, a': seq<int>)
    requires CarryShape(a0, base0, a, base, nn, k) && 0 < k && |a'| == |a|
    ensures CarryShape(a0, base0, a', base[k := base[k] - 1], nn, k - 1)
  {
    var base' := base[k := base[k] - 1];
    forall m {:trigger base'[m]} | 0 <= m < 16 ensures base'[m] == BaseDuring(base0[m], m, nn / 16, k - 1) {
      assert base[m] == BaseDuring(base0[m], m, nn / 16, k);
    }
  }

  lemma AboveAt(s: seq<int>, a: seq<int>, base: seq<int>, nn: int, k: int, m: int, q: int)
    requires |s| == 256 && 0 <= nn < 256 && 0 <= k && CarriedAbove(s, a, base, nn, k) && k < m < 16 && 0 <= q < 16
    ensures At(a, base, m, q) == Moved(s, nn, 16 * m + q)
  {
    hide Moved;
  }

  lemma BelowAt(a0: seq<int>, base0: seq<int>, a: seq<int>, nn: int, k: int, m: int, q: int)
    requires UntouchedBelow(a0, base0, a, nn, k) && 0 <= m <= k && m < nn / 16 && 0 <= q < 16
    ensures At(a, base0, m, q) == At(a0, base0, m, q)
  {
    hide At;
  }

  lemma HereAt(s: seq<int>, base0: seq<int>, a: seq<int>, nn: int, k: int, q: int)
    requires |s| == 256 && 0 <= nn < 256 && 0 <= k < 16 && ShiftedHere(s, base0, a, nn, k) && 0 < q < 16
    ensures At(a, base0, k, q) == Moved(s, nn, 16 * k + q)
  {
    hide Moved;
  }

  lemma ListAt(a: seq<int>, base: seq<int>, m: int, q: int)
    requires 0 <= m < 16 && 0 <= q < 16
    ensures ListOf(a, base)[16 * m + q] == At(a, base, m, q)
  {
    hide ListOf;
  }

  lemma LinesApart(base: seq<int>, m: int, k: int)
    requires Lines(base) && 0 <= m < k < 16
    ensures 0 <= base[m] && base[m] + 16 <= base[k] <= 4080
  {
  }

  /** Where line m stands while line k is next: one lower if already carried, one higher if it is the shifted line. */
  ghost function BaseDuring(b0: int, m: int, lno: int, k: int): int {
    if m == lno && k == lno then b0 + 1 else if k < m < lno then b0 - 1 else b0
  }

  /** Carrying the last entry of line k-1 into line k. */
  lemma CarryStep(a0: seq<int>, base0: seq<int>, a: seq<int>, base: seq<int>, nn: int, k: int)
    requires Carrying(a0, base0, a, base, nn, k) && k > 0
    ensures 0 <= base[k] - 1 < |a| && 0 <= base[k - 1] + 15 < |a|
    ensures Carrying(a0, base0, a[base[k] - 1 := a[base[k - 1] + 15]], base[k := base[k] - 1], nn, k - 1)
  {
    hide CarryShape, CarriedAbove, UntouchedBelow, ShiftedHere, ListOf, Lines;
    CarryParts(a0, base0, a, base, nn, k);
    CarriedEntry(a0, base0, a, base, nn, k);
    var w, v := base[k] - 1, a[base[k - 1] + 15];
    ShapeStep(a0, base0, a, base, nn, k, a[w := v]);
    AboveStep(a0, base0, a, base, nn, k);
    BelowStep(a0, base0, a, base, nn, k, w, v);
  }

  lemma AboveStep(a0: seq<int>, base0: seq<int>, a: seq<int>, base: seq<int>, nn: int, k: int)
    requires Carrying(a0, base0, a, base, nn, k) && k > 0
    ensures 0 <= base[k] - 1 < |a| && 0 <= base[k - 1] + 15 < |a| && nn < 256
    ensures CarriedAbove(ListOf(a0, base0), a[base[k] - 1 := a[base[k - 1] + 15]], base[k := base[k] - 1], nn, k - 1)
  {
    hide Carrying, ListOf, Moved;
    CarriedEntry(a0, base0, a, base, nn, k);
    CarryParts(a0, base0, a, base, nn, k);
    var a', base' := a[base[k] - 1 := a[base[k - 1] + 15]], base[k := base[k] - 1];
    forall m, q {:trigger At(a', base', m, q)} | k - 1 < m < 16 && 0 <= q < 16
      ensures At(a', base', m, q) == Moved(ListOf(a0, base0), nn, 16 * m + q)
    {
      if m > k {
        CarryAbove(a0, base0, a, base, nn, k, m, q);
      } else {
        CarryLine(a0, base0, a, base, nn, k, q);
      }
    }
  }

  lemma BelowStep(a0: seq<int>, base0: seq<int>, a: seq<int>, base: seq<int>, nn: int, k: int, w: int, v: int)
    requires CarryShape(a0, base0, a, base, nn, k) && UntouchedBelow(a0, base0, a, nn, k) && k > 0 && w == base[k] - 1
      && 0 <= w < |a|
    requires 0 <= base[k - 1] + 15 < |a| && v == a[base[k - 1] + 15]
    ensures UntouchedBelow(a0, base0, a[w := v], nn, k - 1)
  {
    CarryPlaces(a0, base0, a, base, nn, k);
    var a' := a[w := v];
    forall m, q {:trigger At(a', base0, m, q)} | 0 <= m <= k - 1 && m < nn / 16 && 0 <= q < 16
      ensures At(a', base0, m, q) == At(a0, base0, m, q)
    {
      BelowAt(a0, base0, a, nn, k, m, q);
      LinesApart(base0, m, k);
    }
  }

  lemma CarryAbove(a0: seq<int>, base0: seq<int>, a: seq<int>, base: seq<int>, nn: int, k: int, m: int, q: int)
    requires Carrying(a0, base0, a, base, nn, k) && 0 < k < m < 16 && 0 <= q < 16
    ensures 0 <= base[k] - 1 < |a| && 0 <= base[k - 1] + 15 < |a|
    ensures At(a[base[k] - 1 := a[base[k - 1] + 15]], base[k := base[k] - 1], m, q)
      == Moved(ListOf(a0, base0), nn, 16 * m + q)
  {
    hide Carrying, CarriedAbove, UntouchedBelow, ShiftedHere, ListOf, Lines, Moved;
    CarryParts(a0, base0, a, base, nn, k);
    CarryPlaces(a0, base0, a, base, nn, k);
    AboveAt(ListOf(a0, base0), a, base, nn, k, m, q);
    LinesApart(base0, k, m);
    assert base[m] == BaseDuring(base0[m], m, nn / 16, k);
  }

  /** The entries of line k before the carry, one place down, are what belongs there after it. */
  lemma LineBefore(a0: seq<int>, base0: seq<int>, a: seq<int>, base: seq<int>, nn: int, k: int, q: int)
    requires Carrying(a0, base0, a, base, nn, k) && 0 < q < 16
    ensures 0 <= base[k] - 1 + q < |a|
    ensures a[base[k] - 1 + q] == Moved(ListOf(a0, base0), nn, 16 * k + q)
  {
    hide Carrying, CarryShape, CarriedAbove, UntouchedBelow, ShiftedHere, ListOf, Lines;
    CarryParts(a0, base0, a, base, nn, k);
    CarryPlaces(a0, base0, a, base, nn, k);
    if k == nn / 16 {
      HereAt(ListOf(a0, base0), base0, a, nn, k, q);
    } else {
      BelowAt(a0, base0, a, nn, k, k, q - 1);
      ListAt(a0, base0, k, q - 1);
    }
  }

  lemma CarriedEntry(a0: seq<int>, base0: seq<int>, a: seq<int>, base: seq<int>, nn: int, k: int)
    requires Carrying(a0, base0, a, base, nn, k) && 0 < k
    ensures 0 <= base[k] - 1 < |a| && 0 <= base[k - 1] + 15 < |a| && base[k - 1] == base0[k - 1]
    ensures a[base[k - 1] + 15] == Moved(ListOf(a0, base0), nn, 16 * k)
  {
    hide Carrying, CarryShape, CarriedAbove, UntouchedBelow, ShiftedHere, ListOf, Lines;
    CarryParts(a0, base0, a, base, nn, k);
    CarryPlaces(a0, base0, a, base, nn, k);
    BelowAt(a0, base0, a, nn, k, k - 1, 15);
    ListAt(a0, base0, k - 1, 15);
  }

  lemma CarryLine(a0: seq<int>, base0: seq<int>, a: seq<int>, base: seq<int>, nn: int, k: int, q: int)
    requires Carrying(a0, base0, a, base, nn, k) && 0 < k && 0 <= q < 16
    ensures 0 <= base[k] - 1 < |a| && 0 <= base[k - 1] + 15 < |a|
    ensures At(a[base[k] - 1 := a[base[k - 1] + 15]], base[k := base[k] - 1], k, q)
      == Moved(ListOf(a0, base0), nn, 16 * k + q)
  {
    hide Carrying, CarryShape, CarriedAbove, UntouchedBelow, ShiftedHere, Moved, ListOf;
    CarryParts(a0, base0, a, base, nn, k);
    CarriedEntry(a0, base0, a, base, nn, k);
    if q > 0 { LineBefore(a0, base0, a, base, nn, k, q); }
  }

  lemma FrontLine(a0: seq<int>, base0: seq<int>, a: seq<int>, base: seq<int>, nn: int, m: int, q: int)
    requires Carrying(a0, base0, a, base, nn, 0) && 0 <= m < 16 && 0 <= q < 16
    ensures 16 <= nn < 256 && |base| == 16 && 0 <= base[0] - 1 < |a|
    ensures At(a[base[0] - 1 := ListOf(a0, base0)[nn]], base[0 := base[0] - 1], m, q)
      == Moved(ListOf(a0, base0), nn, 16 * m + q)
  {
    hide Carrying, CarryShape, CarriedAbove, UntouchedBelow, ShiftedHere, ListOf, Lines;
    CarryParts(a0, base0, a, base, nn, 0);
    CarryPlaces(a0, base0, a, base, nn, 0);
    if m > 0 {
      FrontAbove(a0, base0, a, base, nn, m, q);
    } else if q > 0 {
      LineBefore(a0, base0, a, base, nn, 0, q);
    }
  }

  /** Lines above the front entry keep clear of the place it goes to. */
  lemma FrontAbove(a0: seq<int>, base0: seq<int>, a: seq<int>, base: seq<int>, nn: int, m: int, q: int)
    requires Carrying(a0, base0, a, base, nn, 0) && 0 < m < 16 && 0 <= q < 16
    ensures |base| == 16 && 16 <= nn < 256 && At(a, base, m, q) == Moved(ListOf(a0, base0), nn, 16 * m + q)
    ensures base[0] <= base[m] && base[m] + q < |a|
  {
    hide Carrying, CarriedAbove, UntouchedBelow, ShiftedHere, ListOf, Lines, Moved;
    CarryParts(a0, base0, a, base, nn, 0);
    CarryPlaces(a0, base0, a, base, nn, 0);
    AboveAt(ListOf(a0, base0), a, base, nn, 0, m, q);
    LinesApart(base0, 0, m);
    assert base[m] == BaseDuring(base0[m], m, nn / 16, 0);
  }

  /** With every line carried, the front entry goes one place below line 0. */
  lemma CarryEnds(a0: seq<int>, base0: seq<int>, a: seq<int>, base: seq<int>, nn: int)
    requires Carrying(a0, base0, a, base, nn, 0)
    ensures 0 <= base[0] - 1 < |a|
    ensures ListOf(a[base[0] - 1 := ListOf(a0, base0)[nn]], base[0 := base[0] - 1]) == ToFront(ListOf(a0, base0), nn)
    ensures Lines(base[0 := base[0] - 1])
  {
    LinesAfter(base0, base, nn);
    hide Carrying, At, Lines, Moved, ToFront, ListOf;
    var s := ListOf(a0, base0);
    FrontLine(a0, base0, a, base, nn, 0, 0);
    var a', base' := a[base[0] - 1 := s[nn]], base[0 := base[0] - 1];
    forall m, q {:trigger At(a', base', m, q)} | 0 <= m < 16 && 0 <= q < 16
      ensures At(a', base', m, q) == Moved(s, nn, 16 * m + q)
    {
      FrontLine(a0, base0, a, base, nn, m, q);
    }
    ListMoved(a', base', s, nn);
  }

  lemma LinesAfter(base0: seq<int>, base: seq<int>, nn: int)
    requires Lines(base0) && base0[0] >= 1 && |base| == 16 && 16 <= nn < 256
    requires forall m :: 0 <= m < 16 ==> base[m] == BaseDuring(base0[m], m, nn / 16, 0)
    ensures Lines(base[0 := base[0] - 1])
  {
  }

  // ----- shifts inside one line -----------------------------------------------------------------------------

  /** a is a0 with the off entries from pp moved up by one. */
  ghost predicate ShiftedUp(a0: seq<int>, a: seq<int>, pp: int, off: int) {
    |a0| == |a| == MTFA_SIZE && forall x {:trigger a[x]} :: 0 <= x < |a| ==> a[x] == if 0 <= pp < x <= pp + off
      then a0[x - 1] else a0[x]
  }

  lemma ShiftedElsewhere(a0: seq<int>, base0: seq<int>, a: seq<int>, lno: int, off: int, m: int, q: int)
    requires Lines(base0) && 0 <= lno < 16 && 0 <= off < 16 && 0 <= m < 16 && m != lno && 0 <= q < 16
    requires ShiftedUp(a0, a, base0[lno], off)
    ensures At(a, base0, m, q) == At(a0, base0, m, q)
  {
    if m < lno { assert base0[m] + 16 <= base0[lno]; } else { assert base0[lno] + 16 <= base0[m]; }
  }

  lemma ShiftedInside(a0: seq<int>, base0: seq<int>, a: seq<int>, nn: int, q: int)
    requires Lines(base0) && 16 <= nn < 256 && 0 < q < 16
    requires ShiftedUp(a0, a, base0[nn / 16], nn % 16)
    ensures At(a, base0, nn / 16, q) == Moved(ListOf(a0, base0), nn, 16 * (nn / 16) + q)
  {
    var lno, off := nn / 16, nn % 16;
    var s := ListOf(a0, base0);
    assert nn == 16 * lno + off && 0 <= off < 16;
    assert At(a0, base0, lno, q - 1) == s[16 * lno + (q - 1)];
    assert At(a0, base0, lno, q) == s[16 * lno + q];
    hide ListOf;
    ShiftedEntry(a0, base0, a, lno, off, q);
  }

  lemma ShiftedEntry(a0: seq<int>, base0: seq<int>, a: seq<int>, lno: int, off: int, q: int)
    requires Lines(base0) && 0 <= lno < 16 && 0 <= off < 16 && 0 < q < 16 && ShiftedUp(a0, a, base0[lno], off)
    ensures At(a, base0, lno, q) == if q <= off then At(a0, base0, lno, q - 1) else At(a0, base0, lno, q)
  {
  }

  /** The first part of the general case: line lno shifted up by one over its first off entries, its base moved up. */
  lemma CarryStarts(a0: seq<int>, base0: seq<int>, a: seq<int>, nn: int)
    requires |a0| == |a| == MTFA_SIZE && Lines(base0) && base0[0] >= 1 && 16 <= nn < 256
    requires ShiftedUp(a0, a, base0[nn / 16], nn % 16)
    ensures Carrying(a0, base0, a, base0[nn / 16 := base0[nn / 16] + 1], nn, nn / 16)
  {
    hide ShiftedUp, ListOf, CarriedAbove, UntouchedBelow, ShiftedHere, Lines;
    var lno := nn / 16;
    LinesSizes(base0);
    AboveStarts(a0, base0, a, nn, lno, nn % 16);
    BelowStarts(a0, base0, a, nn);
    HereStarts(a0, base0, a, nn);
  }

  lemma LinesSizes(base: seq<int>)
    requires Lines(base)
    ensures |base| == 16
  {
  }

  lemma BelowStarts(a0: seq<int>, base0: seq<int>, a: seq<int>, nn: int)
    requires |a0| == |a| == MTFA_SIZE && Lines(base0) && 16 <= nn < 256 && ShiftedUp(a0, a, base0[nn / 16], nn % 16)
    ensures UntouchedBelow(a0, base0, a, nn, nn / 16)
  {
    hide ShiftedUp, At;
    forall m, q {:trigger At(a, base0, m, q)} | 0 <= m < nn / 16 && 0 <= q < 16
      ensures At(a, base0, m, q) == At(a0, base0, m, q)
    {
      ShiftedElsewhere(a0, base0, a, nn / 16, nn % 16, m, q);
    }
  }

  lemma HereStarts(a0: seq<int>, base0: seq<int>, a: seq<int>, nn: int)
    requires |a0| == |a| == MTFA_SIZE && Lines(base0) && 16 <= nn < 256 && ShiftedUp(a0, a, base0[nn / 16], nn % 16)
    ensures ShiftedHere(ListOf(a0, base0), base0, a, nn, nn / 16)
  {
    hide ShiftedUp, ListOf, At, Moved;
    forall q {:trigger At(a, base0, nn / 16, q)} | 0 < q < 16
      ensures At(a, base0, nn / 16, q) == Moved(ListOf(a0, base0), nn, 16 * (nn / 16) + q)
    {
      ShiftedInside(a0, base0, a, nn, q);
    }
  }

  lemma AboveStarts(a0: seq<int>, base0: seq<int>, a: seq<int>, nn: int, lno: int, off: int)
    requires |a0| == |a| == MTFA_SIZE && Lines(base0) && 16 <= nn < 256 && nn == 16 * lno + off && 0 <= off < 16
    requires 0 <= lno < 16 && ShiftedUp(a0, a, base0[lno], off)
    ensures CarriedAbove(ListOf(a0, base0), a, base0[lno := base0[lno] + 1], nn, lno)
  {
    hide ShiftedUp, ListOf;
    var base := base0[lno := base0[lno] + 1];
    forall m, q {:trigger At(a, base, m, q)} | lno < m < 16 && 0 <= q < 16
      ensures At(a, base, m, q) == Moved(ListOf(a0, base0), nn, 16 * m + q)
    {
      ShiftedElsewhere(a0, base0, a, lno, off, m, q);
      ListAt(a0, base0, m, q);
    }
  }

  /** The common case nn < 16: only line 0 changes. */
  lemma ShortMove(a0: seq<int>, base: seq<int>, a: seq<int>, nn: int)
    requires |a0| == |a| == MTFA_SIZE && Lines(base) && 0 <= nn < 16
    requires forall x {:trigger a[x]} :: 0 <= x < |a| ==>
      a[x] == if x == base[0] then a0[base[0] + nn] else if base[0] < x <= base[0] + nn then a0[x - 1] else a0[x]
    ensures ListOf(a, base) == ToFront(ListOf(a0, base), nn)
  {
    var s := ListOf(a0, base);
    forall m, q {:trigger At(a, base, m, q)} | 0 <= m < 16 && 0 <= q < 16
      ensures At(a, base, m, q) == Moved(s, nn, 16 * m + q)
    {
      ShortAt(a0, base, a, nn, m, q);
    }
    hide *;
    ListMoved(a, base, s, nn);
  }

  lemma ShortAt(a0: seq<int>, base: seq<int>, a: seq<int>, nn: int, m: int, q: int)
    requires |a0| == |a| == MTFA_SIZE && Lines(base) && 0 <= nn < 16 && 0 <= m < 16 && 0 <= q < 16
    requires forall x {:trigger a[x]} :: 0 <= x < |a| ==>
      a[x] == if x == base[0] then a0[base[0] + nn] else if base[0] < x <= base[0] + nn then a0[x - 1] else a0[x]
    ensures At(a, base, m, q) == Moved(ListOf(a0, base), nn, 16 * m + q)
  {
    ListAt(a0, base, m, q);
    ListAt(a0, base, 0, nn);
    if m == 0 && 0 < q { ListAt(a0, base, 0, q - 1); }
    ShortEntry(a0, base, a, nn, m, q);
    hide At, ListOf, Lines;
  }

  lemma ShortEntry(a0: seq<int>, base: seq<int>, a: seq<int>, nn: int, m: int, q: int)
    requires |a0| == |a| == MTFA_SIZE && Lines(base) && 0 <= nn < 16 && 0 <= m < 16 && 0 <= q < 16
    requires forall x {:trigger a[x]} :: 0 <= x < |a| ==>
      a[x] == if x == base[0] then a0[base[0] + nn] else if base[0] < x <= base[0] + nn then a0[x - 1] else a0[x]
    ensures m > 0 ==> At(a, base, m, q) == At(a0, base, m, q)
    ensures At(a, base, 0, q) == At(a0, base, 0, if q == 0 then nn else if q <= nn then q - 1 else q)
  {
    assert m > 0 ==> base[0] + 16 <= base[m];
    assert 0 <= base[0] && base[0] + 16 <= base[1];
  }

  // ----- the rebuild ------------------------------------------------------------------------------------------

  /** Where line m stands after a rebuild: the lines fill the top of the array. */
  function TopBase(m: int): int {
    3840 + 16 * m
  }

  /** Lines above m have been copied to the top, in place; line m has been copied from entry q on. */
  ghost predicate Rebuilding(a0: seq<int>, base0: seq<int>, a: seq<int>, base: seq<int>, m: int, q: int) {
    && |a0| == |a| == MTFA_SIZE && Lines(base0) && |base| == 16 && -1 <= m < 16 && 0 <= q <= 16
    && (forall k :: 0 <= k < 16 ==> base[k] == if k > m then TopBase(k) else base0[k])
    && (forall k, r {:trigger At(a0, base0, k, r)} :: 0 <= k < 16 && 0 <= r < 16 && (k > m || (k == m && r >= q)) ==>
         a[TopBase(k) + r] == At(a0, base0, k, r))
    && (forall x {:trigger a[x]} :: 0 <= x < TopBase(m) + q && x < |a| ==> a[x] == a0[x])
  }

  lemma RebuildCopies(a0: seq<int>, base0: seq<int>, a: seq<int>, base: seq<int>, m: int, q: int)
    requires Rebuilding(a0, base0, a, base, m, q) && 0 <= m && 0 < q
    ensures 0 <= base[m] + (q - 1) < |a| && 0 <= TopBase(m) + (q - 1) < |a|
    ensures Rebuilding(a0, base0, a[TopBase(m) + (q - 1) := a[base[m] + (q - 1)]], base, m, q - 1)
  {
    assert a[base[m] + (q - 1)] == At(a0, base0, m, q - 1);
  }

  lemma RebuildNextLine(a0: seq<int>, base0: seq<int>, a: seq<int>, base: seq<int>, m: int)
    requires Rebuilding(a0, base0, a, base, m, 0) && 0 <= m
    ensures Rebuilding(a0, base0, a, base[m := TopBase(m)], m - 1, 16)
  {
  }

  lemma RebuildEnds(a0: seq<int>, base0: seq<int>, a: seq<int>, base: seq<int>)
    requires Rebuilding(a0, base0, a, base, -1, 16)
    ensures Lines(base) && base[0] == 3840 && ListOf(a, base) == ListOf(a0, base0)
  {
    var s := ListOf(a0, base0);
    forall m, q {:trigger At(a, base, m, q)} | 0 <= m < 16 && 0 <= q < 16 ensures At(a, base, m, q) == s[16 * m + q] {
      assert At(a0, base0, m, q) == s[16 * m + q];
    }
    ListIs(a, base, s);
  }

  // ----- the store ----------------------------------------------------------------------------------------------

  class Store {
    const mtfa: array<int>
    const mtfbase: array<int>

    ghost predicate Valid()
      reads mtfa, mtfbase
    {
      && mtfa != mtfbase && mtfa.Length == MTFA_SIZE && mtfbase.Length == 16
      && Lines(mtfbase[..]) && mtfbase[0] >= 1
    }

    /** The plain list. */
    ghost function List(): (s: seq<int>)
      reads mtfa, mtfbase
      ensures |s| == 256
    {
      ListOf(mtfa[..], mtfbase[..])
    }

    constructor ()
      ensures Valid() && List() == Identity(256) && fresh(mtfa) && fresh(mtfbase)
    {
      mtfa := new int[MTFA_SIZE](_ => 0);
      mtfbase := new int[16](_ => 0);
      new;
      var kk, ii := MTFA_SIZE - 1, 15;
      while ii >= 0
        invariant -1 <= ii <= 15 && kk == TopBase(ii) + 15
        invariant forall m :: ii < m < 16 ==> mtfbase[m] == TopBase(m)
        invariant forall x :: kk < x < MTFA_SIZE ==> mtfa[x] == x - 3840
      {
        var jj := 15;
        while jj >= 0
          invariant -1 <= jj <= 15 && kk == TopBase(ii) + jj
          invariant forall m :: ii < m < 16 ==> mtfbase[m] == TopBase(m)
          invariant forall x :: kk < x < MTFA_SIZE ==> mtfa[x] == x - 3840
        {
          mtfa[kk] := ii * MTFL_SIZE + jj;
          kk := kk - 1;
          jj := jj - 1;
        }
        mtfbase[ii] := kk + 1;
        ii := ii - 1;
      }
      ListIs(mtfa[..], mtfbase[..], Identity(256));
    }

    /** The entry at the front. */
    method Front() returns (uc: int)
      requires Valid()
      ensures uc == List()[0]
    {
      assert At(mtfa[..], mtfbase[..], 0, 0) == List()[16 * 0 + 0];
      uc := mtfa[mtfbase[0]];
    }

    /** Takes entry nn of the list and moves it to the front. */
    method Take(nn0: int) returns (uc: int)
      requires Valid() && 0 <= nn0 < 256
      modifies mtfa, mtfbase
      ensures Valid() && uc == old(List())[nn0] && List() == ToFront(old(List()), nn0)
    {
      if nn0 < MTFL_SIZE {
        uc := TakeShort(nn0);
      } else {
        uc := TakeLong(nn0);
      }
    }

    method TakeShort(nn0: int) returns (uc: int)
      requires Valid() && 0 <= nn0 < 16
      modifies mtfa
      ensures Valid() && uc == old(List())[nn0] && List() == ToFront(old(List()), nn0)
    {
      hide ListOf, ToFront;
      ghost var a0, base := mtfa[..], mtfbase[..];
      assert At(a0, base, 0, nn0) == ListOf(a0, base)[16 * 0 + nn0];
      var pp := mtfbase[0];
      uc := mtfa[pp + nn0];
      ShiftShort(pp, nn0);
      mtfa[pp] := uc;
      ShortMove(a0, base, mtfa[..], nn0);
    }

    /** Moves entries pp..pp+nn0-1 up by one, four at a time and then singly. */
    method ShiftShort(pp: int, nn0: int)
      requires mtfa.Length == MTFA_SIZE && 0 <= pp && 0 <= nn0 < 16 && pp + nn0 < MTFA_SIZE
      modifies mtfa
      ensures forall x {:trigger mtfa[x]} :: 0 <= x < MTFA_SIZE ==>
        mtfa[x] == if pp < x <= pp + nn0 then old(mtfa[x - 1]) else old(mtfa[x])
    {
      ghost var a0 := mtfa[..];
      var nn := nn0;
      while nn > 3
        invariant 0 <= nn <= nn0
        invariant forall x {:trigger mtfa[x]} :: 0 <= x < MTFA_SIZE ==>
          mtfa[x] == if pp + nn < x <= pp + nn0 then a0[x - 1] else a0[x]
      {
        var z := pp + nn;
        mtfa[z] := mtfa[z - 1];
        mtfa[z - 1] := mtfa[z - 2];
        mtfa[z - 2] := mtfa[z - 3];
        mtfa[z - 3] := mtfa[z - 4];
        nn := nn - 4;
      }
      while nn > 0
        invariant 0 <= nn <= nn0
        invariant forall x {:trigger mtfa[x]} :: 0 <= x < MTFA_SIZE ==>
          mtfa[x] == if pp + nn < x <= pp + nn0 then a0[x - 1] else a0[x]
      {
        mtfa[pp + nn] := mtfa[pp + nn - 1];
        nn := nn - 1;
      }
    }

    method TakeLong(nn: int) returns (uc: int)
      requires Valid() && 16 <= nn < 256
      modifies mtfa, mtfbase
      ensures Valid() && uc == old(List())[nn] && List() == ToFront(old(List()), nn)
    {
      hide *;
      ghost var a0, base0 := mtfa[..], mtfbase[..];
      StoreParts();
      ListIsAt(a0, base0, nn);
      var lno, off := nn / MTFL_SIZE, nn % MTFL_SIZE;
      uc := ShiftLine(lno, off);
      mtfbase[lno] := mtfbase[lno] + 1;
      assert mtfbase[..] == base0[lno := base0[lno] + 1];
      CarryStarts(a0, base0, mtfa[..], nn);
      CarryLines(a0, base0, nn);
      ghost var a, base := mtfa[..], mtfbase[..];
      CarryEnds(a0, base0, a, base, nn);
      mtfbase[0] := mtfbase[0] - 1;
      assert mtfbase[..] == base[0 := base[0] - 1];
      mtfa[mtfbase[0]] := uc;
      assert mtfa[..] == a[base[0] - 1 := uc];
      StoreList();
      if mtfbase[0] == 0 { Rebuild(); } else { StoreAgain(); }
    }

    lemma StoreParts()
      requires Valid()
      ensures mtfa != mtfbase && mtfa.Length == MTFA_SIZE == 4096 && mtfbase.Length == 16 && MTFL_SIZE == 16
      ensures Lines(mtfbase[..]) && mtfbase[0] >= 1 && List() == ListOf(mtfa[..], mtfbase[..])
      ensures forall m {:trigger mtfbase[m]} :: 0 <= m < 16 ==> 0 <= mtfbase[m] <= 4096 - 16
    {
      hide ListOf;
    }

    lemma StoreList()
      requires mtfa.Length == MTFA_SIZE && mtfbase.Length == 16 && mtfa != mtfbase && Lines(mtfbase[..])
      ensures List() == ListOf(mtfa[..], mtfbase[..])
    {
      hide ListOf;
    }

    lemma StoreAgain()
      requires mtfa != mtfbase && mtfa.Length == MTFA_SIZE && mtfbase.Length == 16
      requires Lines(mtfbase[..]) && mtfbase[0] != 0
      ensures Valid()
    {
    }

    /** Shifts the first off entries of a line up by one and returns the one shifted over. */
    method ShiftLine(lno: int, off: int) returns (uc: int)
      requires Valid() && 0 < lno < 16 && 0 <= off < 16
      modifies mtfa
      ensures uc == old(mtfa[mtfbase[lno] + off])
      ensures ShiftedUp(old(mtfa[..]), mtfa[..], mtfbase[lno], off)
    {
      ghost var a0 := mtfa[..];
      var pp := mtfbase[lno] + off;
      uc := mtfa[pp];
      while pp > mtfbase[lno]
        invariant mtfbase[lno] <= pp <= mtfbase[lno] + off
        invariant forall x {:trigger mtfa[x]} :: 0 <= x < MTFA_SIZE ==>
          mtfa[x] == if pp < x <= mtfbase[lno] + off then a0[x - 1] else a0[x]
      {
        mtfa[pp] := mtfa[pp - 1];
        pp := pp - 1;
      }
    }

    method CarryLines(ghost a0: seq<int>, ghost base0: seq<int>, nn: int)
      requires mtfa != mtfbase && mtfa.Length == MTFA_SIZE && mtfbase.Length == 16 && 16 <= nn < 256
      requires Carrying(a0, base0, mtfa[..], mtfbase[..], nn, nn / 16)
      modifies mtfa, mtfbase
      ensures Carrying(a0, base0, mtfa[..], mtfbase[..], nn, 0)
    {
      hide Carrying, Lines, ListOf, ToFront, Moved;
      var lno := nn / MTFL_SIZE;
      while lno > 0
        invariant 0 <= lno < 16
        invariant Carrying(a0, base0, mtfa[..], mtfbase[..], nn, lno)
      {
        ghost var a, base := mtfa[..], mtfbase[..];
        CarryStep(a0, base0, a, base, nn, lno);
        mtfbase[lno] := mtfbase[lno] - 1;
        mtfa[mtfbase[lno]] := mtfa[mtfbase[lno - 1] + MTFL_SIZE - 1];
        assert mtfbase[..] == base[lno := base[lno] - 1];
        assert mtfa[..] == a[base[lno] - 1 := a[base[lno - 1] + 15]];
        lno := lno - 1;
      }
    }

    /** Copies all lines back to the top of the array. */
    method Rebuild()
      requires mtfa != mtfbase && mtfa.Length == MTFA_SIZE && mtfbase.Length == 16 && Lines(mtfbase[..])
      modifies mtfa, mtfbase
      ensures Valid() && List() == old(List())
    {
      ghost var a0, base0 := mtfa[..], mtfbase[..];
      RebuildStarts(a0, base0);
      hide *;
      var kk, ii := MTFA_SIZE - 1, 15;
      while ii >= 0
        invariant -1 <= ii <= 15 && kk == TopBase(ii) + 15
        invariant Rebuilding(a0, base0, mtfa[..], mtfbase[..], ii, 16)
      {
        kk := CopyLine(a0, base0, ii, kk);
        RebuildNextLine(a0, base0, mtfa[..], mtfbase[..], ii);
        ghost var base := mtfbase[..];
        mtfbase[ii] := kk + 1;
        TopBaseIs(ii);
        assert mtfbase[..] == base[ii := TopBase(ii)];
        ii := ii - 1;
      }
      RebuildEnds(a0, base0, mtfa[..], mtfbase[..]);
    }

    method CopyLine(ghost a0: seq<int>, ghost base0: seq<int>, ii: int, kk0: int) returns (kk: int)
      requires mtfa != mtfbase && mtfa.Length == MTFA_SIZE && mtfbase.Length == 16 && 0 <= ii < 16
        && kk0 == TopBase(ii) + 15
      requires Rebuilding(a0, base0, mtfa[..], mtfbase[..], ii, 16)
      modifies mtfa
      ensures kk == TopBase(ii) - 1 && Rebuilding(a0, base0, mtfa[..], mtfbase[..], ii, 0)
    {
      hide Rebuilding, Lines;
      kk := kk0;
      var jj := MTFL_SIZE - 1;
      while jj >= 0
        invariant -1 <= jj <= 15 && kk == TopBase(ii) + jj
        invariant Rebuilding(a0, base0, mtfa[..], mtfbase[..], ii, jj + 1)
      {
        ghost var a := mtfa[..];
        RebuildCopies(a0, base0, a, mtfbase[..], ii, jj + 1);
        mtfa[kk] := mtfa[mtfbase[ii] + jj];
        assert mtfa[..] == a[TopBase(ii) + (jj + 1 - 1) := a[mtfbase[ii] + (jj + 1 - 1)]];
        kk := kk - 1;
        jj := jj - 1;
      }
    }
  }

  lemma RebuildStarts(a: seq<int>, base: seq<int>)
    requires |a| == MTFA_SIZE && Lines(base)
    ensures Rebuilding(a, base, a, base, 15, 16)
  {
  }

  lemma TopBaseIs(m: int)
    ensures TopBase(m - 1) + 15 == TopBase(m) - 1
    ensures TopBase(15) == 4080
  {
  }

  lemma ListIsAt(a: seq<int>, base: seq<int>, nn: int)
    requires |a| == MTFA_SIZE && Lines(base) && 0 <= nn < 256
    ensures 0 <= base[nn / 16] + nn % 16 < |a| && ListOf(a, base)[nn] == a[base[nn / 16] + nn % 16]
  {
    var m, q := nn / 16, nn % 16;
    assert nn == 16 * m + q;
    assert ListOf(a, base)[16 * m + q] == At(a, base, m, q);
    hide ListOf;
  }
}
