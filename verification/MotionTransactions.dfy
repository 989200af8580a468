/**
 The nesting of transactions (src/motion/Arbiter.h:143-154, src/motion/Arbiter.cpp:182-218): what kind is in
 force while guards open and close, and that this is what the comments promise.
 */
module MotionTransactions {
  import opened MotionModel

  /** The two fields of the arbiter that guards change. */
  datatype Scope = Scope(depth: nat, outer: TransactionKind)

  /** What a guard remembers until it closes. */
  datatype Guard = Guard(outermost: bool, raised: bool, restore: TransactionKind)

  function Strength(k: TransactionKind): nat {
    match k
    case Normal => 0
    case Clear => 1
    case ClearAll => 2
    case Death => 3
  }

  predicate Stronger(a: TransactionKind, b: TransactionKind) {
    Strength(a) > Strength(b)
  }

  function Opened(s: Scope, kind: TransactionKind): (r: Scope)
    ensures r.depth == s.depth + 1
  {
    if s.depth == 0 || kind == Death || Stronger(kind, s.outer) then Scope(s.depth + 1, kind)
      else Scope(s.depth + 1, s.outer)
  }

  function GuardOf(s: Scope, kind: TransactionKind): Guard {
    if s.depth > 0 && kind != Death && Stronger(kind, s.outer) then Guard(false, true, s.outer)
    else Guard(s.depth == 0, false, Normal)
  }

  function Closed(s: Scope, g: Guard): Scope
    requires s.depth > 0
  {
    if g.outermost then Scope(s.depth - 1, Normal)
    else if g.raised && s.outer != Death then Scope(s.depth - 1, g.restore)
    else Scope(s.depth - 1, s.outer)
  }

  predicate Discarding(s: Scope) {
    s.depth > 0 && s.outer != Normal
  }

  // ----- traces ------------------------------------------------------------------------------------------------------

  datatype Action = Enter(kind: TransactionKind) | Leave

  datatype Open = Open(kind: TransactionKind, guard: Guard)

  /** The scope, the open guards, outermost first, and whether a death has been entered since the outermost was. */
  datatype Play = Play(scope: Scope, open: seq<Open>, death: bool)

  function Next(p: Play, a: Action): Play
    requires p.scope.depth == |p.open| && (a.Leave? ==> p.open != [])
  {
    match a
    case Enter(kind) =>
      Play(Opened(p.scope, kind), p.open + [Open(kind, GuardOf(p.scope, kind))], p.death || kind == Death)
    case Leave =>
      var n := |p.open| - 1;
      Play(Closed(p.scope, p.open[n].guard), p.open[..n], n > 0 && p.death)
  }

  /** How many guards a trace leaves open; a guard closes only while one is open. */
  function Height(trace: seq<Action>): int {
    if trace == [] then 0 else Height(trace[..|trace| - 1]) + if trace[|trace| - 1].Enter? then 1 else -1
  }

  ghost predicate WellNested(trace: seq<Action>) {
    forall n {:trigger trace[..n]} :: 0 <= n <= |trace| ==> Height(trace[..n]) >= 0
  }

  lemma NestedPrefix(trace: seq<Action>)
    requires WellNested(trace) && trace != []
    ensures WellNested(trace[..|trace| - 1])
    ensures Height(trace[..|trace| - 1]) >= 0 && Height(trace) >= 0
  {
    var prior := trace[..|trace| - 1];
    forall n {:trigger prior[..n]} | 0 <= n <= |prior| ensures Height(prior[..n]) >= 0 {
      assert prior[..n] == trace[..n];
    }
    assert trace[..|trace|] == trace;
  }

  function Played(trace: seq<Action>): (p: Play)
    requires WellNested(trace)
    ensures p.scope.depth == |p.open| == Height(trace)
    decreases |trace|
  {
    if trace == [] then Play(Scope(0, Normal), [], false)
    else
      NestedPrefix(trace);
      Next(Played(trace[..|trace| - 1]), trace[|trace| - 1])
  }

  function Strongest(open: seq<Open>): TransactionKind {
    if open == [] then Normal
    else
      var k := Strongest(open[..|open| - 1]);
      if Stronger(open[|open| - 1].kind, k) then open[|open| - 1].kind else k
  }

  /** The kind promised to be in force. */
  function Promised(p: Play): TransactionKind {
    if p.open == [] then Normal else if p.death then Death else Strongest(p.open)
  }

  /** Without a death, each guard knows what was in force before it: it raised the kind, or it did not need to. */
  ghost predicate Coherent(open: seq<Open>) {
    && (forall i {:trigger open[i]} :: 0 <= i < |open| ==>
         (open[i].guard.outermost <==> i == 0) && open[i].kind != Death)
    && (forall i {:trigger open[i]} :: 0 < i < |open| ==>
         if open[i].guard.raised then open[i].guard.restore == Strongest(open[..i])
           else Strongest(open[..i + 1]) == Strongest(open[..i]))
  }

  ghost predicate InForce(p: Play) {
    && p.scope.depth == |p.open| && p.scope.outer == Promised(p)
    && (p.open == [] ==> !p.death)
    && (forall i {:trigger p.open[i]} :: 0 <= i < |p.open| ==> (p.open[i].guard.outermost <==> i == 0))
    && (!p.death ==> Coherent(p.open))
  }

  lemma StrongestMore(open: seq<Open>, o: Open)
    ensures Strongest(open + [o]) == if Stronger(o.kind, Strongest(open)) then o.kind else Strongest(open)
  {
    assert (open + [o])[..|open + [o]| - 1] == open;
  }

  lemma CoherentMore(open: seq<Open>, o: Open)
    requires Coherent(open) && o.kind != Death && (o.guard.outermost <==> open == [])
    requires open != [] ==>
      if o.guard.raised then o.guard.restore == Strongest(open) else Strongest(open + [o]) == Strongest(open)
    ensures Coherent(open + [o])
  {
    hide Strongest;
    var more := open + [o];
    forall i {:trigger more[i]} | 0 < i < |more|
      ensures if more[i].guard.raised then more[i].guard.restore == Strongest(more[..i])
        else Strongest(more[..i + 1]) == Strongest(more[..i])
    {
      if i < |open| {
        assert more[..i] == open[..i] && more[..i + 1] == open[..i + 1] && more[i] == open[i];
      } else {
        assert more[..i] == open && more[..i + 1] == more;
      }
    }
  }

  lemma CoherentLess(open: seq<Open>)
    requires Coherent(open) && open != []
    ensures Coherent(open[..|open| - 1])
  {
    hide Strongest;
    var less := open[..|open| - 1];
    forall i {:trigger less[i]} | 0 < i < |less|
      ensures if less[i].guard.raised then less[i].guard.restore == Strongest(less[..i])
        else Strongest(less[..i + 1]) == Strongest(less[..i])
    {
      assert less[..i] == open[..i] && less[..i + 1] == open[..i + 1] && less[i] == open[i];
    }
  }

  /** Entering leaves the promised kind in force. */
  lemma EnterPromise(p: Play, kind: TransactionKind)
    requires InForce(p)
    ensures Next(p, Enter(kind)).scope.outer == Promised(Next(p, Enter(kind)))
    ensures p.death ==> p.open != []
  {
    StrongestMore(p.open, Open(kind, GuardOf(p.scope, kind)));
    assert Strongest([]) == Normal;
    hide Strongest, Coherent;
  }

  /** The new guard remembers what was in force, if it raised the kind. */
  lemma EnterGuard(p: Play, kind: TransactionKind)
    requires InForce(p) && !p.death && kind != Death
    ensures Coherent(p.open + [Open(kind, GuardOf(p.scope, kind))])
  {
    var o := Open(kind, GuardOf(p.scope, kind));
    StrongestMore(p.open, o);
    hide Strongest;
    assert o.kind != Death && (o.guard.outermost <==> p.open == []);
    hide Coherent;
    CoherentMore(p.open, o);
  }

  lemma OutermostFirst(open: seq<Open>, o: Open)
    requires forall i {:trigger open[i]} :: 0 <= i < |open| ==> (open[i].guard.outermost <==> i == 0)
    requires o.guard.outermost <==> open == []
    ensures forall i {:trigger (open + [o])[i]} :: 0 <= i < |open| + 1 ==> ((open + [o])[i].guard.outermost <==> i == 0)
  {
  }

  lemma EnterKeeps(p: Play, kind: TransactionKind)
    requires InForce(p)
    ensures InForce(Next(p, Enter(kind)))
  {
    hide Strongest, Coherent, Promised;
    EnterPromise(p, kind);
    OutermostFirst(p.open, Open(kind, GuardOf(p.scope, kind)));
    if !p.death && kind != Death { EnterGuard(p, kind); }
  }

  /** Leaving puts the promised kind back in force. */
  lemma LeavePromise(p: Play)
    requires InForce(p) && |p.open| > 1 && !p.death
    ensures Next(p, Leave).scope.outer == Promised(Next(p, Leave)) && Coherent(p.open[..|p.open| - 1])
  {
    var n := |p.open| - 1;
    assert p.open[..n + 1] == p.open;
    StrongestNotDeath(p.open);
    CoherentLess(p.open);
    assert if p.open[n].guard.raised then p.open[n].guard.restore
      == Strongest(p.open[..n]) else Strongest(p.open[..n + 1]) == Strongest(p.open[..n]);
    assert !p.open[n].guard.outermost;
    hide Strongest, Coherent;
  }

  lemma LeaveKeeps(p: Play)
    requires InForce(p) && p.open != []
    ensures InForce(Next(p, Leave))
  {
    hide Strongest, Coherent;
    var n := |p.open| - 1;
    if n > 0 && !p.death { LeavePromise(p); }
    if n == 0 { NothingOpen(Next(p, Leave)); }
  }

  lemma NothingOpen(p: Play)
    requires p.open == [] && p.scope == Scope(0, Normal) && !p.death
    ensures InForce(p)
  {
  }

  lemma {:induction false} StrongestNotDeath(open: seq<Open>)
    requires forall i {:trigger open[i]} :: 0 <= i < |open| ==> open[i].kind != Death
    ensures Strongest(open) != Death
  {
    if open != [] { StrongestNotDeath(open[..|open| - 1]); }
  }

  /**
   The discard law, over every well-nested trace: a death entered since the outermost guard stays in force
   until that one closes; otherwise the strongest kind among the open guards is in force.
   */
  lemma {:induction false} DiscardLaw(trace: seq<Action>)
    requires WellNested(trace)
    ensures InForce(Played(trace))
    ensures Played(trace).scope.outer == Promised(Played(trace))
    decreases |trace|
  {
    if trace != [] {
      NestedPrefix(trace);
      DiscardLaw(trace[..|trace| - 1]);
      var p := Played(trace[..|trace| - 1]);
      hide InForce, Promised, Next;
      match trace[|trace| - 1]
      case Enter(kind) => EnterKeeps(p, kind);
      case Leave => LeaveKeeps(p);
    }
  }
}
