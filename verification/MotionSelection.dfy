/**
 Which entry the arbiter selects, what a change of selection logs, and which slots a request fills, empties and
 leaves (src/motion/Arbiter.h:60-95, src/motion/Arbiter.cpp:38-92, 333-447, 691-745).
 */
module MotionSelection {
  import opened MotionLedger
  import opened MotionModel
  import opened MotionRuns

  // ----- the selection ----------------------------------------------------------------------------------------------

  /** Something is held in the layer. */
  predicate Occupied(s: State, layer: Layer)
    requires Shaped(s)
  {
    match layer
    case DefaultLayer => s.dflt.Some?
    case CombatLayer => s.combat.Some?
    case ControlLayer => s.claims != []
    case _ => s.commands[Index(layer)].Some?
  }

  /** The highest layer that is occupied. */
  ghost predicate Highest(s: State, layer: Layer)
    requires Shaped(s)
  {
    Occupied(s, layer) && forall other {:trigger Occupied(s, other)} ::
      Occupied(s, other) ==> Index(other) <= Index(layer)
  }

  /** The claim that rules the others: a confusion if there is one, and the newest of its sort. */
  ghost predicate Ruling(claims: seq<Held>, c: Held) {
    && c in claims
    && forall i {:trigger claims[i]} :: 0 <= i < |claims| ==>
         && (claims[i].kind == Confused ==> c.kind == Confused)
         && ((claims[i].kind == Confused <==> c.kind == Confused) ==> claims[i].arrival <= c.arrival)
  }

  /** The entry that stands for its layer. */
  ghost predicate Stands(s: State, layer: Layer, h: Held)
    requires Shaped(s)
  {
    match layer
    case DefaultLayer => s.dflt == Some(h)
    case CombatLayer => s.combat == Some(h)
    case ControlLayer => Ruling(s.claims, h)
    case _ => s.commands[Index(layer)] == Some(h)
  }

  lemma {:induction false} BestRules(claims: seq<Held>, n: nat)
    requires 0 < n <= |claims|
    ensures Ruling(claims[..n], claims[BestClaim(claims, n)])
    decreases n
  {
    var b := BestClaim(claims, n);
    if n > 1 {
      BestRules(claims, n - 1);
      assert claims[..n] == claims[..n - 1] + [claims[n - 1]];
    }
    assert claims[..n][b] == claims[b];
  }

  /** Nothing is selected only when nothing is held; else the selected entry stands for the highest occupied layer. */
  lemma SelectionLaw(s: State)
    requires Shaped(s)
    ensures Selected(s).None? <==> forall layer {:trigger Occupied(s, layer)} :: !Occupied(s, layer)
    ensures forall layer {:trigger Highest(s, layer)} :: Highest(s, layer) <==> SelectedLayer(s) == Some(layer)
    ensures forall layer {:trigger Highest(s, layer)} ::
      Highest(s, layer) ==> Selected(s).Some? && Stands(s, layer, Selected(s).value)
  {
    if s.claims != [] {
      BestRules(s.claims, |s.claims|);
      assert s.claims[..|s.claims|] == s.claims;
    }
    hide BestClaim, Ruling;
    forall layer {:trigger Occupied(s, layer)} | Occupied(s, layer)
      ensures SelectedLayer(s).Some? && Index(layer) <= Index(SelectedLayer(s).value)
    {
    }
    if SelectedLayer(s).Some? { assert Occupied(s, SelectedLayer(s).value); }
    forall layer {:trigger Highest(s, layer)} | Highest(s, layer) ensures SelectedLayer(s) == Some(layer) {
      assert Occupied(s, SelectedLayer(s).value);
      SameIndex(layer, SelectedLayer(s).value);
    }
  }

  lemma SameIndex(a: Layer, b: Layer)
    requires Index(a) == Index(b)
    ensures a == b
  {
  }

  // ----- a change of selection --------------------------------------------------------------------------------------

  /** Another entry has been selected over one that is still held. */
  ghost predicate Overtaken(s: State, r: State)
    requires Shaped(s) && Shaped(r)
  {
    && Selected(s).Some? && Selected(r).Some? && Selected(r).value.arrival != Selected(s).value.arrival
    && StillHeld(r, Selected(s).value.arrival)
  }

  predicate IsCut(e: Event) {
    e.what == Suspended && e.reason == Cut
  }

  /** The events logged from n on say that b was cut short, once if at all, and nothing else was. */
  ghost predicate CutOnly(log: seq<Event>, n: nat, b: Option<Held>) {
    && (forall i {:trigger log[i]} :: n <= i < |log| && IsCut(log[i]) ==>
         b.Some? && log[i] == About(b.value, Suspended, Cut))
    && forall i, j {:trigger log[i], log[j]} :: n <= i < |log| && n <= j < |log| && IsCut(log[i]) && IsCut(log[j]) ==>
         i == j
  }

  ghost predicate SomeCut(log: seq<Event>, n: nat) {
    exists i {:trigger log[i]} :: n <= i < |log| && IsCut(log[i])
  }

  /** The selected entry is cut short by an operation if and only if another one is selected and it is still held. */
  lemma CutExactly(s: State, op: Op)
    requires Shaped(s)
    ensures CutOnly(Step(s, op).log, |s.log|, Selected(s))
    ensures SomeCut(Step(s, op).log, |s.log|) <==> Overtaken(s, Step(s, op))
  {
    hide *;
    var r := Step(s, op);
    var t, form := StepForm(s, op);
    match form {
      case Compared => ComparedCuts(s, op, r, t);
      case _ => OtherCuts(s, op, r, t, form);
    }
  }

  lemma OtherCuts(s: State, op: Op, r: State, t: State, form: Form)
    requires Formed(s, op, r, t, form) && form != Compared
    ensures CutOnly(r.log, |s.log|, Selected(s)) && !SomeCut(r.log, |s.log|) && !Overtaken(s, r)
  {
    if form == Paused {
      SameSelection(s, t);
      ReconciledSettles(t);
      ReconciledLogs(t);
    } else if form == Unnoticed {
      SameSelection(s, t);
    }
    hide Reconciled, Selected, StillHeld, PauseDue, UpdatedFrom, Reselected;
  }

  /** What comparing the selections cuts short. */
  lemma ChangedCuts(t: State, before: Option<Held>)
    requires Shaped(t)
    ensures var log := Changed(t, before).log;
      && t.log <= log && CutOnly(log, |t.log|, before)
      && (SomeCut(log, |t.log|) <==>
           before.Some? && Selected(t).Some? && Selected(t).value.arrival != before.value.arrival
           && StillHeld(t, before.value.arrival))
  {
    hide Selected, StillHeld;
    var log := Changed(t, before).log;
    if |log| > |t.log| { assert IsCut(log[|t.log|]) || log[|t.log|].what == Resumed; }
  }

  /** What is logged before and after the comparison cuts nothing short. */
  lemma LogsJoin(s: seq<Event>, t: seq<Event>, c: seq<Event>, r: seq<Event>, b: Option<Held>)
    requires s <= t <= c <= r && |r| <= |c| + 1 && (|r| > |c| ==> !IsCut(r[|c|]))
    requires forall i {:trigger t[i]} :: |s| <= i < |t| ==> !IsCut(t[i])
    requires CutOnly(c, |t|, b)
    ensures CutOnly(r, |s|, b) && (SomeCut(r, |s|) <==> SomeCut(c, |t|))
  {
    hide IsCut;
    forall i {:trigger r[i]} | |s| <= i < |r|
      ensures IsCut(r[i]) ==> |t| <= i < |c| && r[i] == c[i]
    {
      if i < |t| { assert r[i] == t[i]; } else if i < |c| { assert r[i] == c[i]; }
    }
    if SomeCut(c, |t|) {
      var i :| |t| <= i < |c| && IsCut(c[i]);
      assert r[i] == c[i];
    }
  }

  lemma ComparedParts(s: State, op: Op, r: State, t: State)
    requires Formed(s, op, r, t, Compared)
    ensures Shaped(s) && Shaped(t) && s.log <= t.log && r == Reselected(t, Selected(s)) && t.blocked == s.blocked
    ensures forall i {:trigger t.log[i]} :: |s.log| <= i < |t.log| ==>
      !IsCut(t.log[i]) && !IsPause(t.log[i]) && !IsUnpause(t.log[i])
  {
    hide Selected, UpdatedFrom, Reselected, Entry;
  }

  lemma ReselectedLogs(t: State, b: Option<Held>)
    requires Shaped(t)
    ensures var r, c := Reselected(t, b), Changed(t, b);
      c.log <= r.log && |r.log| <= |c.log| + 1 && (|r.log| > |c.log| ==> !IsCut(r.log[|c.log|]))
  {
    ReselectedIs(t, b);
    var u := Started(Changed(t, b));
    ReconciledLogs(u);
    ReconciledSettles(u);
    hide Reselected, Reconciled, Changed, PauseDue, Selected;
  }

  lemma ComparedCuts(s: State, op: Op, r: State, t: State)
    requires Formed(s, op, r, t, Compared)
    ensures Shaped(s) && Shaped(r) && CutOnly(r.log, |s.log|, Selected(s))
    ensures SomeCut(r.log, |s.log|) <==> Overtaken(s, r)
  {
    hide *;
    ComparedParts(s, op, r, t);
    var b := Selected(s);
    ChangedCuts(t, b);
    ReselectedLogs(t, b);
    LogsJoin(s.log, t.log, Changed(t, b).log, r.log, b);
    ReselectedSettles(t, b);
    SelectedThen(t, r);
    if b.Some? { HeldStill(t, b, b.value.arrival); }
    OvertakenIs(s, r);
  }

  lemma OvertakenIs(s: State, r: State)
    requires Shaped(s) && Shaped(r)
    ensures Overtaken(s, r) <==>
      Selected(s).Some? && Selected(r).Some? && Selected(r).value.arrival != Selected(s).value.arrival
      && StillHeld(r, Selected(s).value.arrival)
  {
  }

  lemma SelectedThen(t: State, r: State)
    requires Shaped(t) && Settled(r)
    requires Selected(r) == if Selected(t).None? then None else Some(Selected(t).value.(started := true))
    ensures Shaped(r) && Selected(r).Some? == Selected(t).Some?
    ensures Selected(r).Some? ==> Selected(r).value.arrival == Selected(t).value.arrival
  {
    hide Selected, PauseDue;
  }

  /** Comparing selections, starting and pausing move no entry. */
  lemma HeldStill(t: State, before: Option<Held>, n: nat)
    requires Shaped(t)
    ensures StillHeld(Reselected(t, before), n) == StillHeld(t, n)
  {
    ReselectedIs(t, before);
    ChangedSame(t, before);
    var c := Changed(t, before);
    StartedHeld(c, n);
    ReconciledSettles(Started(c));
    hide Reselected, Reconciled, Started, Changed, PauseDue, Selected;
  }

  lemma StartedHeld(c: State, n: nat)
    requires Shaped(c)
    ensures StillHeld(Started(c), n) == StillHeld(c, n)
  {
    var u := Started(c);
    assert |u.commands| == |c.commands| && |u.claims| == |c.claims|;
    assert forall i {:trigger c.claims[i]} {:trigger u.claims[i]} :: 0 <= i < |c.claims| ==>
      u.claims[i].arrival == c.claims[i].arrival;
    assert forall i {:trigger c.commands[i]} {:trigger u.commands[i]} :: 0 <= i < |c.commands| ==>
      u.commands[i].Some? == c.commands[i].Some?
      && (c.commands[i].Some? ==> u.commands[i].value.arrival == c.commands[i].value.arrival);
  }

  // ----- pauses -----------------------------------------------------------------------------------------------------

  predicate IsPause(e: Event) {
    e.what == Suspended && e.reason == Blocked
  }

  predicate IsUnpause(e: Event) {
    e.what == Resumed && e.reason == Blocked
  }

  /** An event of the log from n on. */
  ghost predicate Has(log: seq<Event>, n: nat, e: Event) {
    exists i {:trigger log[i]} :: n <= i < |log| && log[i] == e
  }

  ghost predicate SomePause(log: seq<Event>, n: nat) {
    exists i {:trigger log[i]} :: n <= i < |log| && IsPause(log[i])
  }

  ghost predicate SomeUnpause(log: seq<Event>, n: nat) {
    exists i {:trigger log[i]} :: n <= i < |log| && IsUnpause(log[i])
  }

  /** The selected entry may not tick, and it is not the one that was paused. */
  ghost predicate NewlyPaused(s: State, r: State)
    requires Shaped(r)
  {
    Selected(r).Some? && !Evaluate(r).ticks && Selected(r).value.arrival != s.blocked
  }

  /** The selected entry may tick, and it is the one that was paused. */
  ghost predicate GoesOn(s: State, r: State)
    requires Shaped(r)
  {
    s.blocked != 0 && Selected(r).Some? && Evaluate(r).ticks && Selected(r).value.arrival == s.blocked
  }

  /** A pause is logged if and only if one begins, and the end of one if and only if what was paused goes on. */
  lemma PauseExactly(s: State, op: Op)
    requires Settled(s)
    ensures var r := Step(s, op);
      && (SomePause(r.log, |s.log|) <==> NewlyPaused(s, r))
      && (SomeUnpause(r.log, |s.log|) <==> GoesOn(s, r))
      && (NewlyPaused(s, r) ==> Has(r.log, |s.log|, About(Selected(r).value, Suspended, Blocked)))
      && (GoesOn(s, r) ==> Has(r.log, |s.log|, About(Selected(r).value, Resumed, Blocked)))
  {
    hide *;
    SettledShaped(s);
    var r := Step(s, op);
    var t, form := StepForm(s, op);
    match form {
      case Compared =>
        ComparedParts(s, op, r, t);
        ComparedPause(s, r, t);
      case Paused => PausedPause(s, op, r, t);
      case _ => OtherPause(s, op, r, t, form);
    }
  }

  /** What reconciling logs, exactly. */
  lemma ReconciledExactly(u: State)
    requires Shaped(u)
    ensures var r := Reconciled(u);
      && u.log <= r.log && Selected(r) == Selected(u)
      && (SomePause(r.log, |u.log|) <==> NewlyPaused(u, r)) && (SomeUnpause(r.log, |u.log|) <==> GoesOn(u, r))
      && (NewlyPaused(u, r) ==> Has(r.log, |u.log|, About(Selected(r).value, Suspended, Blocked)))
      && (GoesOn(u, r) ==> Has(r.log, |u.log|, About(Selected(r).value, Resumed, Blocked)))
  {
    ReconciledSettles(u);
    var r := Reconciled(u);
    SameSelection(u, r);
    hide Selected, Evaluate, PauseDue;
    if |r.log| > |u.log| { assert IsPause(r.log[|u.log|]) || IsUnpause(r.log[|u.log|]); }
  }

  /** Events before do not count, if they are no pauses. */
  lemma PausesJoin(a: seq<Event>, b: seq<Event>, c: seq<Event>)
    requires a <= b <= c && forall i {:trigger b[i]} :: |a| <= i < |b| ==> !IsPause(b[i]) && !IsUnpause(b[i])
    ensures SomePause(c, |a|) == SomePause(c, |b|) && SomeUnpause(c, |a|) == SomeUnpause(c, |b|)
    ensures forall e {:trigger Has(c, |b|, e)} :: Has(c, |b|, e) ==> Has(c, |a|, e)
  {
    forall i {:trigger c[i]} | |a| <= i < |b| ensures !IsPause(c[i]) && !IsUnpause(c[i]) { assert c[i] == b[i]; }
    hide IsPause, IsUnpause;
  }

  lemma ComparedPause(s: State, r: State, t: State)
    requires Settled(s) && Shaped(t) && s.log <= t.log && t.blocked == s.blocked && r == Reselected(t, Selected(s))
    requires forall i {:trigger t.log[i]} :: |s.log| <= i < |t.log| ==> !IsPause(t.log[i]) && !IsUnpause(t.log[i])
    ensures Shaped(r) && s.log <= r.log
    ensures (SomePause(r.log, |s.log|) <==> NewlyPaused(s, r)) && (SomeUnpause(r.log, |s.log|) <==> GoesOn(s, r))
    ensures NewlyPaused(s, r) ==> Has(r.log, |s.log|, About(Selected(r).value, Suspended, Blocked))
    ensures GoesOn(s, r) ==> Has(r.log, |s.log|, About(Selected(r).value, Resumed, Blocked))
  {
    hide *;
    SettledShaped(s);
    var b := Selected(s);
    ReselectedIs(t, b);
    ChangedNoPause(t, b);
    var c := Changed(t, b);
    StartedLog(c);
    var u := Started(c);
    ReconciledExactly(u);
    ReconciledSettles(u);
    PausesJoin(t.log, u.log, r.log);
    PausesJoin(s.log, t.log, r.log);
    SamePause(s, u, r);
  }

  lemma SamePause(s: State, u: State, r: State)
    requires Shaped(r) && s.blocked == u.blocked
    ensures (NewlyPaused(s, r) <==> NewlyPaused(u, r)) && (GoesOn(s, r) <==> GoesOn(u, r))
  {
    hide Selected;
  }

  lemma StartedLog(c: State)
    requires Shaped(c)
    ensures Shaped(Started(c)) && Started(c).log == c.log && Started(c).blocked == c.blocked
  {
  }

  lemma ChangedNoPause(t: State, b: Option<Held>)
    requires Shaped(t)
    ensures var c := Changed(t, b);
      && Shaped(c) && t.log <= c.log && c.blocked == t.blocked
      && forall i {:trigger c.log[i]} :: |t.log| <= i < |c.log| ==> !IsPause(c.log[i]) && !IsUnpause(c.log[i])
  {
    hide Selected, StillHeld;
  }

  lemma PausedPause(s: State, op: Op, r: State, t: State)
    requires Settled(s) && Formed(s, op, r, t, Paused)
    ensures (SomePause(r.log, |s.log|) <==> NewlyPaused(s, r)) && (SomeUnpause(r.log, |s.log|) <==> GoesOn(s, r))
    ensures NewlyPaused(s, r) ==> Has(r.log, |s.log|, About(Selected(r).value, Suspended, Blocked))
    ensures GoesOn(s, r) ==> Has(r.log, |s.log|, About(Selected(r).value, Resumed, Blocked))
  {
    ReconciledExactly(t);
    SamePause(s, t, r);
    hide Selected, Reconciled, PauseDue, Has, SomePause, SomeUnpause;
  }

  lemma OtherPause(s: State, op: Op, r: State, t: State, form: Form)
    requires Settled(s) && Formed(s, op, r, t, form) && form != Compared && form != Paused
    ensures !SomePause(r.log, |s.log|) && !SomeUnpause(r.log, |s.log|) && !NewlyPaused(s, r) && !GoesOn(s, r)
  {
    if form == Unnoticed { StillDue(s, r); }
    hide Selected, SelectedLayer, UpdatedFrom, Reselected, Reconciled, Entry, Reasons, DECIDE;
  }

  lemma StillDue(s: State, r: State)
    requires Settled(s) && r == s.(mobility := r.mobility) && r.mobility.Reasons() == s.mobility.Reasons()
    ensures Shaped(r) && Selected(r) == Selected(s) && Evaluate(r) == Evaluate(s)
  {
    SameSelection(s, r);
    hide Selected, SelectedLayer;
  }
}
