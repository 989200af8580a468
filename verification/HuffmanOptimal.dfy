/**
 Why Huffman's lengths cost the least: joining the two lightest nodes, again and again, gives every leaf a depth, and no
 lengths with room for all of them cost less. This serves both dep/bzip2/huffman.c:79-121 and dep/zlib/trees.c:662-697.
 */
module HuffmanOptimal {
  import HuffmanTree
  import opened Powers

  ghost function All(s: seq<int>): int {
    if s == [] then 0 else All(s[..|s| - 1]) + s[|s| - 1]
  }

  lemma {:induction false} AllSet(s: seq<int>, i: nat, v: int)
    requires i < |s|
    ensures All(s[i := v]) == All(s) - s[i] + v
    decreases |s|
  {
    var n := |s| - 1;
    if i == n {
      assert s[i := v][..n] == s[..n];
    } else {
      AllSet(s[..n], i, v);
      assert s[i := v][..n] == s[..n][i := v];
    }
  }

  lemma AllMore(s: seq<int>, v: int)
    ensures All(s + [v]) == All(s) + v
  {
    assert (s + [v])[..|s|] == s;
  }

  lemma {:induction false} AllAtLeast(s: seq<int>, i: nat, j: nat)
    requires i < |s| && j < |s| && i != j && forall x {:trigger s[x]} :: 0 <= x < |s| ==> s[x] >= 0
    ensures All(s) >= s[i] + s[j]
    decreases |s|
  {
    AllSet(s, i, 0);
    AllSet(s[i := 0], j, 0);
    AllPositive(s[i := 0][j := 0]);
  }

  lemma {:induction false} AllPositive(s: seq<int>)
    requires forall x {:trigger s[x]} :: 0 <= x < |s| ==> s[x] >= 0
    ensures All(s) >= 0
    decreases |s|
  {
    if s != [] { AllPositive(s[..|s| - 1]); }
  }

  // ----- costs and room ---------------------------------------------------------------------------------------------

  ghost function Terms(live: seq<bool>, f: seq<int>, l: seq<int>): (s: seq<int>)
    requires |live| <= |f| && |live| <= |l|
    ensures |s| == |live|
  {
    seq(|live|, x requires 0 <= x < |live| => if live[x] then f[x] * l[x] else 0)
  }

  /** What lengths l cost the live nodes of frequencies f. */
  ghost function Cost(live: seq<bool>, f: seq<int>, l: seq<int>): int
    requires |live| <= |f| && |live| <= |l|
  {
    All(Terms(live, f, l))
  }

  ghost function Shares(live: seq<bool>, l: seq<int>, max: nat): (s: seq<int>)
    requires |live| <= |l|
    ensures |s| == |live|
  {
    seq(|live|, x requires 0 <= x < |live| => if live[x] && 0 <= l[x] <= max then Pow2(max - l[x]) else 0)
  }

  /** Their Kraft sum in units of 2^-max. */
  ghost function Room(live: seq<bool>, l: seq<int>, max: nat): int
    requires |live| <= |l|
  {
    All(Shares(live, l, max))
  }

  /** Lengths of at most max that leave room for all. */
  ghost predicate Fits(live: seq<bool>, l: seq<int>, max: nat) {
    && |live| <= |l| && (forall x {:trigger live[x]} :: 0 <= x < |live| && live[x] ==> 0 <= l[x] <= max)
    && Room(live, l, max) <= Pow2(max)
  }

  /** No lengths with room for all cost less than b. */
  ghost predicate AtLeast(live: seq<bool>, f: seq<int>, b: int) {
    |live| <= |f| && forall l, max {:trigger Fits(live, l, max)} :: Fits(live, l, max) ==> Cost(live, f, l) >= b
  }

  lemma CostSet(live: seq<bool>, f: seq<int>, l: seq<int>, x: nat, v: int)
    requires |live| <= |f| && |live| <= |l| && x < |live|
    ensures Cost(live, f, l[x := v]) == Cost(live, f, l) + if live[x] then f[x] * v - f[x] * l[x] else 0
  {
    AllSet(Terms(live, f, l), x, if live[x] then f[x] * v else 0);
    assert Terms(live, f, l[x := v]) == Terms(live, f, l)[x := if live[x] then f[x] * v else 0];
    hide All;
  }

  lemma CostDrop(live: seq<bool>, f: seq<int>, l: seq<int>, x: nat)
    requires |live| <= |f| && |live| <= |l| && x < |live| && live[x]
    ensures Cost(live[x := false], f, l) == Cost(live, f, l) - f[x] * l[x]
  {
    AllSet(Terms(live, f, l), x, 0);
    assert Terms(live[x := false], f, l) == Terms(live, f, l)[x := 0];
    hide All;
  }

  lemma CostMore(live: seq<bool>, f: seq<int>, l: seq<int>)
    requires |live| < |f| && |live| < |l|
    ensures Cost(live + [true], f, l) == Cost(live, f, l) + f[|live|] * l[|live|]
  {
    AllMore(Terms(live, f, l), f[|live|] * l[|live|]);
    assert Terms(live + [true], f, l) == Terms(live, f, l) + [f[|live|] * l[|live|]];
    hide All;
  }

  ghost function ShareOf(len: int, max: nat): int {
    if 0 <= len <= max then Pow2(max - len) else 0
  }

  lemma RoomSet(live: seq<bool>, l: seq<int>, max: nat, x: nat, v: int)
    requires |live| <= |l| && x < |live|
    ensures Room(live, l[x := v], max) == Room(live, l, max) + if live[x] then ShareOf(v, max) - ShareOf(l[x], max)
      else 0
  {
    AllSet(Shares(live, l, max), x, if live[x] then ShareOf(v, max) else 0);
    assert Shares(live, l[x := v], max) == Shares(live, l, max)[x := if live[x] then ShareOf(v, max) else 0];
    hide All;
  }

  lemma RoomDrop(live: seq<bool>, l: seq<int>, max: nat, x: nat)
    requires |live| <= |l| && x < |live| && live[x]
    ensures Room(live[x := false], l, max) == Room(live, l, max) - ShareOf(l[x], max)
  {
    AllSet(Shares(live, l, max), x, 0);
    assert Shares(live[x := false], l, max) == Shares(live, l, max)[x := 0];
    hide All;
  }

  lemma RoomMore(live: seq<bool>, l: seq<int>, max: nat)
    requires |live| < |l|
    ensures Room(live + [true], l, max) == Room(live, l, max) + ShareOf(l[|live|], max)
  {
    AllMore(Shares(live, l, max), ShareOf(l[|live|], max));
    assert Shares(live + [true], l, max) == Shares(live, l, max) + [ShareOf(l[|live|], max)];
    hide All;
  }

  lemma SharesPositive(live: seq<bool>, l: seq<int>, max: nat)
    requires |live| <= |l|
    ensures forall x {:trigger Shares(live, l, max)[x]} :: 0 <= x < |live| ==> Shares(live, l, max)[x] >= 0
  {
  }

  /** The same lengths in larger units. */
  lemma {:induction false} RoomScaled(live: seq<bool>, l: seq<int>, max: nat, top: nat)
    requires |live| <= |l| && top <= max
    requires forall x {:trigger live[x]} :: 0 <= x < |live| && live[x] ==> 0 <= l[x] <= top
    ensures Room(live, l, max) == Pow2(max - top) * Room(live, l, top)
    decreases |live|
  {
    if live == [] {
      assert Shares(live, l, max) == [] && Shares(live, l, top) == [];
    } else {
      var n := |live| - 1;
      RoomScaled(live[..n], l, max, top);
      assert Shares(live, l, max)[..n] == Shares(live[..n], l, max);
      assert Shares(live, l, top)[..n] == Shares(live[..n], l, top);
      hide Pow2;
      var a := if live[n] then ShareOf(l[n], top) else 0;
      if live[n] {
        assert max - l[n] == (max - top) + (top - l[n]);
        Pow2Sum(max - top, top - l[n]);
      }
      assert Shares(live, l, top)[n] == a;
      Spread(Pow2(max - top), Room(live[..n], l, top), a);
    }
  }

  lemma Spread(p: int, a: int, b: int)
    ensures p * (a + b) == p * a + p * b
  {
  }

  // ----- the exchange -----------------------------------------------------------------------------------------------

  /** A live node has the greatest length of all but one. */
  lemma {:induction false} Deepest(live: seq<bool>, l: seq<int>, but: int, n: nat) returns (a: nat)
    requires n <= |live| <= |l| && exists x {:trigger live[x]} :: 0 <= x < n && live[x] && x != but
    ensures a < n && live[a] && a != but
    ensures forall x {:trigger live[x]} :: 0 <= x < n && live[x] && x != but ==> l[x] <= l[a]
  {
    if live[n - 1] && n - 1 != but {
      if x :| 0 <= x < n - 1 && live[x] && x != but {
        a := Deepest(live, l, but, n - 1);
        if l[n - 1] > l[a] { a := n - 1; }
      } else {
        a := n - 1;
      }
    } else {
      assert exists x {:trigger live[x]} :: 0 <= x < n - 1 && live[x] && x != but;
      a := Deepest(live, l, but, n - 1);
    }
  }

  /** A lighter node takes the greater length of a heavier one. */
  lemma Swapped(live: seq<bool>, f: seq<int>, l: seq<int>, max: nat, n: nat, a: nat) returns (l': seq<int>)
    requires Fits(live, l, max) && |live| <= |f| && n < |live| && a < |live| && live[n] && live[a]
    requires f[n] <= f[a] && l[n] <= l[a]
    ensures l' == l[n := l[a]][a := l[n]] && Fits(live, l', max) && Cost(live, f, l') <= Cost(live, f, l)
  {
    l' := l[n := l[a]][a := l[n]];
    if n != a {
      RoomSet(live, l, max, n, l[a]);
      RoomSet(live, l[n := l[a]], max, a, l[n]);
      CostSet(live, f, l, n, l[a]);
      CostSet(live, f, l[n := l[a]], a, l[n]);
      Crossed(f[n], f[a], l[n], l[a]);
      hide Cost, Room, ShareOf;
    } else {
      assert l' == l;
    }
  }

  lemma Crossed(x: int, y: int, s: int, t: int)
    requires x <= y && s <= t
    ensures x * t + y * s <= x * s + y * t
  {
    assert (y - x) * (t - s) >= 0;
    assert (y - x) * (t - s) == y * t - y * s - x * t + x * s;
  }

  /** The two lightest nodes get the two greatest lengths, and that costs no more. */
  lemma LightestDeepest(live: seq<bool>, f: seq<int>, l: seq<int>, max: nat, n: nat, m: nat) returns (l': seq<int>)
    requires Fits(live, l, max) && |live| <= |f| && n < |live| && m < |live| && n != m && live[n] && live[m]
    requires forall x {:trigger f[x]} :: 0 <= x < |live| && live[x] ==> f[n] <= f[x] && (x != n ==> f[m] <= f[x])
    ensures Fits(live, l', max) && Cost(live, f, l') <= Cost(live, f, l) && l'[m] <= l'[n]
    ensures forall x {:trigger live[x]} :: 0 <= x < |live| && live[x] && x != n ==> l'[x] <= l'[m]
  {
    var a := Deepest(live, l, -1, |live|);
    assert f[n] <= f[a];
    var l1 := Swapped(live, f, l, max, n, a);
    assert live[m];
    var b := Deepest(live, l1, n, |live|);
    assert f[m] <= f[b];
    l' := Swapped(live, f, l1, max, m, b);
    hide Fits, Cost;
  }

  /** The greatest length is no use if it is greater than all others. */
  lemma NoLonger(live: seq<bool>, f: seq<int>, l: seq<int>, max: nat, n: nat, m: nat)
    requires Fits(live, l, max) && |live| <= |f| && n < |live| && m < |live| && n != m && live[n] && live[m]
    requires l[m] <= l[n] && f[n] >= 0
    requires forall x {:trigger live[x]} :: 0 <= x < |live| && live[x] && x != n ==> l[x] <= l[m]
    ensures 1 <= l[m] && Fits(live, l[n := l[m]], l[m]) && Cost(live, f, l[n := l[m]]) <= Cost(live, f, l)
  {
    var top := l[m];
    var rest := live[n := false];
    assert live[m] && live[n];
    RoomDrop(live, l, max, n);
    forall x {:trigger rest[x]} | 0 <= x < |rest| && rest[x] ensures 0 <= l[x] <= top { assert live[x] && x != n; }
    RoomScaled(rest, l, max, top);
    var r, p := Room(rest, l, top), Pow2(max - top);
    Pow2Sum(max - top, top);
    RoomLeft(r, p, Pow2(top), Pow2(max - l[n]));
    var l' := l[n := top];
    RoomSame(rest, l, l', top);
    RoomDrop(live, l', top, n);
    assert ShareOf(top, top) == 1;
    CostSet(live, f, l, n, top);
    Lesser(f[n], top, l[n]);
    if top == 0 { TwoShares(live, l', n, m); }
    hide Room, Cost;
  }

  lemma RoomSame(live: seq<bool>, l: seq<int>, l': seq<int>, max: nat)
    requires |live| <= |l| && |l'| == |l| && forall x {:trigger live[x]} :: 0 <= x < |live| && live[x] ==> l'[x] == l[x]
    ensures Room(live, l', max) == Room(live, l, max)
  {
    assert Shares(live, l', max) == Shares(live, l, max);
  }

  lemma Lesser(f: int, s: int, t: int)
    requires f >= 0 && s <= t
    ensures f * s <= f * t
  {
  }

  lemma RoomLeft(r: int, p: int, top: int, last: int)
    requires p >= 1 && last >= 1 && p * r + last <= p * top
    ensures r + 1 <= top
  {
    if r >= top {
      Lesser(p, top, r);
      assert false;
    }
  }

  lemma TwoShares(live: seq<bool>, l: seq<int>, n: nat, m: nat)
    requires |live| <= |l| && n < |live| && m < |live| && n != m && live[n] && live[m] && l[n] == l[m] == 0
    ensures Room(live, l, 0) >= 2
  {
    SharesPositive(live, l, 0);
    AllAtLeast(Shares(live, l, 0), n, m);
    hide All;
  }

  /** The live nodes once n and m are joined by a new one. */
  ghost function Joined(live: seq<bool>, n: nat, m: nat): seq<bool>
    requires n < |live| && m < |live|
  {
    live[n := false][m := false] + [true]
  }

  /** What the join of two of the same length costs less, and that it needs no more room. */
  lemma JoinedFits(live: seq<bool>, f: seq<int>, l: seq<int>, top: nat, n: nat, m: nat) returns (l': seq<int>)
    requires Fits(live, l, top) && |live| < |f| && n < |live| && m < |live| && n != m && live[n] && live[m]
    requires l[n] == l[m] == top && 1 <= top && f[|live|] == f[n] + f[m]
    ensures Fits(Joined(live, n, m), l', top)
    ensures Cost(Joined(live, n, m), f, l') == Cost(live, f, l) - f[n] - f[m]
  {
    l' := l[..|live|] + [top - 1];
    JoinedRange(live, l, l', top, n, m);
    hide Cost, Room, ShareOf, Joined;
    SameFront(live, f, l, l', top);
    JoinedRoom(live, l', top, n, m);
    JoinedCost(live, f, l', top, n, m);
  }

  lemma JoinedRange(live: seq<bool>, l: seq<int>, l': seq<int>, top: nat, n: nat, m: nat)
    requires n < |live| && m < |live| <= |l| && l' == l[..|live|] + [top - 1] && 1 <= top
    requires forall x {:trigger live[x]} :: 0 <= x < |live| && live[x] ==> 0 <= l[x] <= top
    ensures |Joined(live, n, m)| == |live| + 1 == |l'|
    ensures forall x {:trigger Joined(live, n, m)[x]} :: 0 <= x <= |live| && Joined(live, n, m)[x] ==> 0 <= l'[x] <= top
  {
    forall x {:trigger Joined(live, n, m)[x]} | 0 <= x <= |live| && Joined(live, n, m)[x] ensures 0 <= l'[x] <= top {
      if x < |live| { assert live[x]; }
    }
  }

  lemma JoinedRoom(live: seq<bool>, l: seq<int>, top: nat, n: nat, m: nat)
    requires n < |live| < |l| && m < |live| && n != m && live[n] && live[m]
    requires l[n] == l[m] == top && 1 <= top && l[|live|] == top - 1
    ensures Room(Joined(live, n, m), l, top) == Room(live, l, top)
  {
    var one := live[n := false];
    RoomDrop(live, l, top, n);
    RoomDrop(one, l, top, m);
    RoomMore(one[m := false], l, top);
    assert ShareOf(top, top) == 1 && ShareOf(top - 1, top) == 2;
    hide Room, ShareOf;
  }

  lemma JoinedCost(live: seq<bool>, f: seq<int>, l: seq<int>, top: int, n: nat, m: nat)
    requires n < |live| < |l| && m < |live| < |f| && n != m && live[n] && live[m]
    requires l[n] == l[m] == top && l[|live|] == top - 1 && f[|live|] == f[n] + f[m]
    ensures |Joined(live, n, m)| == |live| + 1
    ensures Cost(Joined(live, n, m), f, l) == Cost(live, f, l) - f[n] - f[m]
  {
    var one := live[n := false];
    CostDrop(live, f, l, n);
    CostDrop(one, f, l, m);
    CostMore(one[m := false], f, l);
    Spread(top, f[n], f[m]);
    Spread(-1, f[n], f[m]);
    assert f[|live|] * (top - 1) == f[n] * top + f[m] * top - f[n] - f[m];
    hide Cost;
  }

  lemma SameFront(live: seq<bool>, f: seq<int>, l: seq<int>, l': seq<int>, max: nat)
    requires |live| <= |l| && |live| <= |l'| && |live| <= |f| && forall x {:trigger l'[x]} ::
      0 <= x < |live| ==> l'[x] == l[x]
    ensures Room(live, l', max) == Room(live, l, max) && Cost(live, f, l') == Cost(live, f, l)
  {
    assert Shares(live, l', max) == Shares(live, l, max);
    assert Terms(live, f, l') == Terms(live, f, l);
  }

  /** Joining the two lightest nodes loses nothing: the least cost falls by just what the join weighs. */
  lemma JoinLoses(live: seq<bool>, f: seq<int>, n: nat, m: nat, b: int)
    requires n < |live| < |f| && m < |live| && n != m && live[n] && live[m] && f[|live|] == f[n] + f[m] && f[n] >= 0
    requires forall x {:trigger f[x]} :: 0 <= x < |live| && live[x] ==> f[n] <= f[x] && (x != n ==> f[m] <= f[x])
    requires AtLeast(Joined(live, n, m), f, b)
    ensures AtLeast(live, f, b + f[n] + f[m])
  {
    forall l, max {:trigger Fits(live, l, max)} | Fits(live, l, max) ensures Cost(live, f, l) >= b + f[n] + f[m] {
      var l1 := LightestDeepest(live, f, l, max, n, m);
      NoLonger(live, f, l1, max, n, m);
      var top := l1[m];
      var l2 := JoinedFits(live, f, l1[n := top], top, n, m);
      hide Cost, Fits;
    }
  }

  // ----- a whole tree -----------------------------------------------------------------------------------------------

  /**
   A tree over leaves below n, joined by nodes n to N: par has the node that joins each, above N for the root, and -1
   for leaves that are not there; one joins left[t] and right[t] at t, the lightest and the lightest but for it.
   */
  ghost predicate Tree(n: nat, N: nat, par: seq<int>, left: seq<int>, right: seq<int>, f: seq<int>) {
    && 1 <= n <= N && |par| == |left| == |right| == |f| == N + 1 && par[N] == N + 1
    && (forall x {:trigger par[x]} :: 0 <= x < N ==> par[x] == -1 || n <= par[x] <= N)
    && (forall x {:trigger par[x]} :: n <= x < N ==> x < par[x])
    && (forall t {:trigger left[t]} {:trigger right[t]} :: n <= t <= N ==>
         0 <= left[t] < t && 0 <= right[t] < t && left[t] != right[t] && par[left[t]] == par[right[t]] == t)
    && forall x {:trigger par[x]} :: 0 <= x < N && par[x] >= 0 ==> x == left[par[x]] || x == right[par[x]]
  }

  /** What holds at one node. */
  ghost predicate NodeAt(n: nat, N: nat, par: seq<int>, left: seq<int>, right: seq<int>, f: seq<int>, x: nat)
    requires |par| == |left| == |right| == |f| == N + 1 && x <= N
  {
    && (x < N ==> par[x] == -1 || n <= par[x] <= N)
    && (x < N && n <= x ==> x < par[x])
    && (x < N && 0 <= par[x] <= N ==> x == left[par[x]] || x == right[par[x]])
    && (n <= x ==>
         && 0 <= left[x] < x && 0 <= right[x] < x && left[x] != right[x] && par[left[x]] == par[right[x]] == x)
  }

  lemma TreeFrom(n: nat, N: nat, par: seq<int>, left: seq<int>, right: seq<int>, f: seq<int>)
    requires 1 <= n <= N && |par| == |left| == |right| == |f| == N + 1 && par[N] == N + 1
    requires forall x: nat {:trigger NodeAt(n, N, par, left, right, f, x)} :: x <= N ==>
      NodeAt(n, N, par, left, right, f, x)
    ensures Tree(n, N, par, left, right, f)
  {
    forall x {:trigger par[x]} {:trigger left[x]} {:trigger right[x]} | 0 <= x <= N
      ensures NodeAt(n, N, par, left, right, f, x)
    {
    }
  }

  /** Frequencies add up, and what is joined earlier is no heavier. */
  ghost predicate Heavier(n: nat, N: nat, par: seq<int>, left: seq<int>, right: seq<int>, f: seq<int>)
    requires Tree(n, N, par, left, right, f)
  {
    && (forall t {:trigger left[t]} :: n <= t <= N ==> f[t] == f[left[t]] + f[right[t]] && f[left[t]] <= f[right[t]])
    && (forall x {:trigger f[x]} :: 0 <= x <= N && par[x] >= 0 ==> f[x] >= 0)
    && forall x, y {:trigger f[x], f[y]} :: 0 <= x <= N && 0 <= y <= N && 0 <= par[x] < par[y] ==> f[x] <= f[y]
  }

  /** What one join weighs. */
  ghost predicate JoinAt(N: nat, left: seq<int>, right: seq<int>, f: seq<int>, t: nat)
    requires |left| == |right| == |f| == N + 1 && t <= N
  {
    && 0 <= left[t] <= N && 0 <= right[t] <= N && f[t] == f[left[t]] + f[right[t]] && f[left[t]] <= f[right[t]]
  }

  ghost predicate NoHeavier(par: seq<int>, f: seq<int>, x: nat, y: nat)
    requires x < |par| == |f| && y < |f|
  {
    0 <= par[x] < par[y] ==> f[x] <= f[y]
  }

  lemma HeavierFrom(n: nat, N: nat, par: seq<int>, left: seq<int>, right: seq<int>, f: seq<int>)
    requires Tree(n, N, par, left, right, f)
    requires forall t: nat {:trigger JoinAt(N, left, right, f, t)} :: n <= t <= N ==> JoinAt(N, left, right, f, t)
    requires forall x {:trigger f[x]} :: 0 <= x <= N && par[x] >= 0 ==> f[x] >= 0
    requires forall x: nat, y: nat {:trigger NoHeavier(par, f, x, y)} :: x <= N && y <= N ==> NoHeavier(par, f, x, y)
    ensures Heavier(n, N, par, left, right, f)
  {
    forall t {:trigger left[t]} | n <= t <= N ensures JoinAt(N, left, right, f, t) { }
    forall x, y {:trigger f[x], f[y]} | 0 <= x <= N && 0 <= y <= N && 0 <= par[x] < par[y] ensures f[x] <= f[y] {
      assert NoHeavier(par, f, x, y);
    }
  }

  /** The nodes up to t that are not joined by then. */
  ghost function LiveAt(par: seq<int>, t: nat): (live: seq<bool>)
    requires t < |par|
    ensures |live| == t + 1 && forall x {:trigger live[x]} :: 0 <= x <= t ==> (live[x] <==> par[x] > t)
  {
    seq(t + 1, x requires 0 <= x <= t => par[x] > t)
  }

  /** What all joins after t weigh. */
  ghost function Later(f: seq<int>, t: nat): int
    requires t < |f|
    decreases |f| - t
  {
    if t + 1 == |f| then 0 else f[t + 1] + Later(f, t + 1)
  }

  lemma OneJoin(n: nat, N: nat, par: seq<int>, left: seq<int>, right: seq<int>, f: seq<int>, t: nat)
    requires Tree(n, N, par, left, right, f) && n <= t <= N
    ensures var live, a, b := LiveAt(par, t - 1), left[t], right[t];
      && 0 <= a < t && 0 <= b < t && a != b && live[a] && live[b] && Joined(live, a, b) == LiveAt(par, t)
  {
    var live, a, b := LiveAt(par, t - 1), left[t], right[t];
    forall x | 0 <= x <= t ensures Joined(live, a, b)[x] == LiveAt(par, t)[x] {
      if x < t { assert par[x] == t ==> x == a || x == b; }
    }
  }

  lemma LightestAt(n: nat, N: nat, par: seq<int>, left: seq<int>, right: seq<int>, f: seq<int>, t: nat)
    requires Tree(n, N, par, left, right, f) && Heavier(n, N, par, left, right, f) && n <= t <= N
    ensures var live, a, b := LiveAt(par, t - 1), left[t], right[t];
      f[t] == f[a] + f[b] && 0 <= f[a]
      && forall x {:trigger f[x]} :: 0 <= x < t && live[x] ==> f[a] <= f[x] && (x != a ==> f[b] <= f[x])
  {
    var live, a, b := LiveAt(par, t - 1), left[t], right[t];
    assert par[a] == t && par[b] == t;
    forall x {:trigger f[x]} | 0 <= x < t && live[x] ensures f[a] <= f[x] && (x != a ==> f[b] <= f[x]) {
      if par[x] == t { assert x == a || x == b; }
    }
  }

  /** From t on, no lengths cost less than the joins to come weigh. */
  lemma {:induction false} LeastFrom(n: nat, N: nat, par: seq<int>, left: seq<int>, right: seq<int>, f: seq<int>,
    t: nat)
    requires Tree(n, N, par, left, right, f) && Heavier(n, N, par, left, right, f) && n - 1 <= t <= N
    ensures AtLeast(LiveAt(par, t), f, Later(f, t))
    decreases N - t
  {
    hide *;
    TreeSizes(n, N, par, left, right, f);
    if t == N {
      RootLeast(n, N, par, left, right, f);
      LaterIs(f, t);
    } else {
      LeastFrom(n, N, par, left, right, f, t + 1);
      OneJoin(n, N, par, left, right, f, t + 1);
      LightestAt(n, N, par, left, right, f, t + 1);
      LaterIs(f, t);
      JoinLoses(LiveAt(par, t), f, left[t + 1], right[t + 1], Later(f, t + 1));
    }
  }

  lemma TreeSizes(n: nat, N: nat, par: seq<int>, left: seq<int>, right: seq<int>, f: seq<int>)
    requires Tree(n, N, par, left, right, f)
    ensures 1 <= n <= N && |par| == |left| == |right| == |f| == N + 1
  {
  }

  lemma LaterIs(f: seq<int>, t: nat)
    requires t < |f|
    ensures Later(f, t) == if t + 1 == |f| then 0 else f[t + 1] + Later(f, t + 1)
  {
  }

  lemma RootLeast(n: nat, N: nat, par: seq<int>, left: seq<int>, right: seq<int>, f: seq<int>)
    requires Tree(n, N, par, left, right, f) && Heavier(n, N, par, left, right, f)
    ensures N < |par| && AtLeast(LiveAt(par, N), f, 0)
  {
    RootAtLeast(par, f, N);
  }

  lemma RootAtLeast(par: seq<int>, f: seq<int>, N: nat)
    requires |par| == |f| == N + 1 && forall x {:trigger f[x]} :: 0 <= x <= N && par[x] > N ==> f[x] >= 0
    ensures AtLeast(LiveAt(par, N), f, 0)
  {
    var live := LiveAt(par, N);
    forall l, max {:trigger Fits(live, l, max)} | Fits(live, l, max) ensures Cost(live, f, l) >= 0 {
      var s := Terms(live, f, l);
      forall x {:trigger s[x]} | 0 <= x < |s| ensures s[x] >= 0 {
        if live[x] { Lesser(f[x], 0, l[x]); }
      }
      AllPositive(s);
    }
  }

  /** dep says how deep the nodes lie. */
  ghost predicate Deep(N: nat, par: seq<int>, dep: seq<int>) {
    && |dep| == |par| == N + 1 && dep[N] == 0
    && forall x {:trigger dep[x]} {:trigger par[x]} :: 0 <= x < N && 0 <= par[x] <= N ==> dep[x] == dep[par[x]] + 1
  }

  /** And the depths cost just that. */
  lemma {:induction false} DepthsCost(n: nat, N: nat, par: seq<int>, left: seq<int>, right: seq<int>, f: seq<int>,
                                      dep: seq<int>, t: nat)
    requires Tree(n, N, par, left, right, f) && Heavier(n, N, par, left, right, f) && n - 1 <= t <= N
      && Deep(N, par, dep)
    ensures Cost(LiveAt(par, t), f, dep) == Later(f, t)
    decreases N - t
  {
    hide *;
    TreeSizes(n, N, par, left, right, f);
    DeepSize(N, par, dep);
    LaterIs(f, t);
    if t == N {
      OnlyRoot(n, N, par, left, right, f, dep);
    } else {
      DepthsCost(n, N, par, left, right, f, dep, t + 1);
      OneJoin(n, N, par, left, right, f, t + 1);
      LightestAt(n, N, par, left, right, f, t + 1);
      SonsDeep(n, N, par, left, right, f, dep, t + 1);
      var a, b := left[t + 1], right[t + 1];
      JoinedCost(LiveAt(par, t), f, dep, dep[a], a, b);
    }
  }

  lemma DeepSize(N: nat, par: seq<int>, dep: seq<int>)
    requires Deep(N, par, dep)
    ensures |dep| == |par| == N + 1
  {
  }

  lemma SonsDeep(n: nat, N: nat, par: seq<int>, left: seq<int>, right: seq<int>, f: seq<int>, dep: seq<int>, t: nat)
    requires Tree(n, N, par, left, right, f) && Deep(N, par, dep) && n <= t <= N
    ensures 0 <= left[t] < t && 0 <= right[t] < t && dep[left[t]] == dep[right[t]] == dep[t] + 1
  {
    assert par[left[t]] == t && par[right[t]] == t;
  }

  lemma OnlyRoot(n: nat, N: nat, par: seq<int>, left: seq<int>, right: seq<int>, f: seq<int>, dep: seq<int>)
    requires Tree(n, N, par, left, right, f) && Deep(N, par, dep)
    ensures Cost(LiveAt(par, N), f, dep) == 0
  {
    var s := Terms(LiveAt(par, N), f, dep);
    forall x {:trigger s[x]} | 0 <= x < |s| ensures s[x] == 0 { assert x < N ==> par[x] <= N; }
    Nothing(s);
  }

  lemma {:induction false} Nothing(s: seq<int>)
    requires forall x {:trigger s[x]} :: 0 <= x < |s| ==> s[x] == 0
    ensures All(s) == 0
    decreases |s|
  {
    if s != [] { Nothing(s[..|s| - 1]); }
  }

  /** The depths of the leaves of such a tree cost no more than any lengths that leave room for all of them. */
  lemma HuffmanLeast(n: nat, N: nat, par: seq<int>, left: seq<int>, right: seq<int>, f: seq<int>, dep: seq<int>)
    requires Tree(n, N, par, left, right, f) && Heavier(n, N, par, left, right, f) && Deep(N, par, dep)
    ensures AtLeast(LiveAt(par, n - 1), f, Cost(LiveAt(par, n - 1), f, dep))
  {
    LeastFrom(n, N, par, left, right, f, n - 1);
    DepthsCost(n, N, par, left, right, f, dep, n - 1);
  }

  // ----- depth needs weight -----------------------------------------------------------------------------------------

  /** From p up, a node is one deeper than the one that joins it. */
  ghost predicate DeepAbove(N: nat, par: seq<int>, dep: seq<int>, p: nat) {
    && |dep| == |par| == N + 1 && p <= N && dep[N] == 0
    && forall x {:trigger dep[x]} {:trigger par[x]} :: p <= x < N && 0 <= par[x] <= N ==> dep[x] == dep[par[x]] + 1
  }

  /** Above a node that weighs a Fibonacci number, and one of its two the one before, each join weighs the next. */
  lemma {:induction false} FibUp(n: nat, N: nat, par: seq<int>, left: seq<int>, right: seq<int>, f: seq<int>,
    dep: seq<int>,
                                 c: nat, p: nat, i: nat)
    requires Tree(n, N, par, left, right, f) && Heavier(n, N, par, left, right, f) && DeepAbove(N, par, dep, p)
    requires n <= p <= N && c < p && par[c] == p && f[c] >= HuffmanTree.Fib(i + 1) && f[p] >= HuffmanTree.Fib(i + 2)
    ensures dep[p] >= 0 && f[N] >= HuffmanTree.Fib(i + 2 + dep[p])
    decreases N - p
  {
    if p < N {
      var q := par[p];
      FibNext(n, N, par, left, right, f, c, p, i);
      FibUp(n, N, par, left, right, f, dep, p, q, i + 1);
      hide Tree, Heavier, HuffmanTree.Fib;
    }
  }

  lemma FibNext(n: nat, N: nat, par: seq<int>, left: seq<int>, right: seq<int>, f: seq<int>, c: nat, p: nat, i: nat)
    requires Tree(n, N, par, left, right, f) && Heavier(n, N, par, left, right, f)
    requires n <= p < N && c < p && par[c] == p && f[c] >= HuffmanTree.Fib(i + 1) && f[p] >= HuffmanTree.Fib(i + 2)
    ensures var q := par[p]; p < q <= N && n <= q && f[q] >= HuffmanTree.Fib(i + 3)
  {
    var q := par[p];
    var s := if left[q] == p then right[q] else left[q];
    assert par[left[q]] == q && par[right[q]] == q;
    assert p == left[q] || p == right[q];
    assert par[s] == q && f[c] <= f[s] && f[q] == f[p] + f[s];
    assert HuffmanTree.Fib(i + 3) == HuffmanTree.Fib(i + 2) + HuffmanTree.Fib(i + 1);
    hide Tree, Heavier, HuffmanTree.Fib;
  }

  /** Leaves weigh at least one, so joined nodes weigh at least two. */
  lemma {:induction false} NoneLight(n: nat, N: nat, par: seq<int>, left: seq<int>, right: seq<int>, f: seq<int>,
    x: nat)
    requires Tree(n, N, par, left, right, f) && Heavier(n, N, par, left, right, f) && x <= N && par[x] >= 0
    requires forall y {:trigger f[y]} :: 0 <= y < n && par[y] >= 0 ==> f[y] >= 1
    ensures f[x] >= if x < n then 1 else 2
    decreases x
  {
    if x >= n {
      assert par[left[x]] == x && par[right[x]] == x;
      NoneLight(n, N, par, left, right, f, left[x]);
      NoneLight(n, N, par, left, right, f, right[x]);
    }
  }

  /** A node joined by one at depth d needs the whole to weigh the Fibonacci number d + 3. */
  lemma DeepHeavy(n: nat, N: nat, par: seq<int>, left: seq<int>, right: seq<int>, f: seq<int>, dep: seq<int>, x: nat)
    requires Tree(n, N, par, left, right, f) && Heavier(n, N, par, left, right, f) && x < N && 0 <= par[x] <= N
    requires DeepAbove(N, par, dep, par[x])
    requires forall y {:trigger f[y]} :: 0 <= y < n && par[y] >= 0 ==> f[y] >= 1
    ensures dep[par[x]] >= 0 && f[N] >= HuffmanTree.Fib(dep[par[x]] + 3)
  {
    var p := par[x];
    assert p == N || par[p] >= n;
    NoneLight(n, N, par, left, right, f, x);
    NoneLight(n, N, par, left, right, f, p);
    assert n <= p && x < p by { assert x == left[p] || x == right[p]; }
    assert HuffmanTree.Fib(2) == 1 && HuffmanTree.Fib(3) == 2;
    FibUp(n, N, par, left, right, f, dep, x, p, 1);
  }
}
