/**
 Safety of the movement arbiter over every run of operations: the selection has been started, the pause is
 the one the table asks for, a resume from a block answers a pause of the same entry, and an entry is
 resumed as exposed again only if it ran before.
 */
module MotionRuns {
  import opened MotionModel
  import opened MotionLedger

  /** h is held in some place. */
  ghost predicate Entry(s: State, h: Held) {
    s.dflt == Some(h) || s.fallback == Some(h) || s.combat == Some(h) || Some(h) in s.commands || h in s.claims
  }

  /** From s to t nothing was paused or resumed, and whatever in t has run was in s. */
  ghost predicate Kept(s: State, t: State) {
    && t.blocked == s.blocked && t.mobility == s.mobility
    && s.log <= t.log
         && (forall i {:trigger t.log[i]} :: |s.log| <= i < |t.log| ==>
         t.log[i].what == Finished || t.log[i].what == DefaultSwapped)
    && (forall h {:trigger Entry(t, h)} :: Entry(t, h) && h.started ==> Entry(s, h))
  }

  lemma KeptOn(s: State, t: State, u: State)
    requires Kept(s, t) && Kept(t, u)
    ensures Kept(s, u)
  {
    hide Entry;
    forall i {:trigger u.log[i]} | |s.log| <= i < |u.log|
      ensures u.log[i].what == Finished || u.log[i].what == DefaultSwapped
    {
      if i < |t.log| { assert u.log[i] == t.log[i]; }
    }
  }

  lemma SlotsKept(s: State, reason: FinishReason)
    ensures Kept(s, FinishDefault(s, reason)) && Kept(s, FinishFallback(s, reason)) && Kept(s, FinishCombat(s, reason))
    ensures Kept(s, PopDefault(s, reason))
  {
  }

  lemma CommandKept(s: State, i: nat, reason: FinishReason)
    requires Shaped(s) && i < LAYERS
    ensures Kept(s, FinishCommand(s, i, reason))
  {
  }

  lemma ClaimKept(s: State, i: nat, reason: FinishReason)
    requires i < |s.claims|
    ensures Kept(s, FinishClaim(s, i, reason))
  {
  }

  lemma {:induction false} ClaimsKept(s: State, kind: Option<Kind>, reason: FinishReason)
    ensures Kept(s, FinishClaims(s, kind, reason))
    ensures kind.None? ==> FinishClaims(s, kind, reason).claims == []
    decreases |s.claims|
  {
    var b := BestOfKind(s.claims, kind, |s.claims|);
    if b.Some? {
      ClaimKept(s, b.value, reason);
      ClaimsKept(FinishClaim(s, b.value, reason), kind, reason);
      hide Kept, FinishClaim;
      KeptOn(s, FinishClaim(s, b.value, reason), FinishClaims(s, kind, reason));
    } else if kind.None? && s.claims != [] {
      assert false;
    }
  }

  lemma {:induction false} CommandsKept(s: State, from: nat, reason: FinishReason)
    requires Shaped(s)
    ensures Kept(s, FinishCommands(s, from, reason))
    decreases LAYERS - from
  {
    hide Kept, FinishCommand;
    if from < LAYERS {
      var t := FinishCommand(s, from, reason);
      CommandKept(s, from, reason);
      CommandsKept(t, from + 1, reason);
      KeptOn(s, t, FinishCommands(s, from, reason));
    } else {
      KeptSame(s);
    }
  }

  lemma KeptSame(s: State)
    ensures Kept(s, s)
  {
  }

  lemma {:induction false} OverrideKept(s: State, i: nat, lower: nat)
    requires Shaped(s) && i < LAYERS
    ensures Kept(s, OverrideBelow(s, i, lower))
    decreases i - lower
  {
    hide Kept, FinishCommand;
    if lower >= i {
      KeptSame(s);
    } else if lower == CONTROL {
      OverrideKept(s, i, lower + 1);
    } else {
      var t := FinishCommand(s, lower, Overridden);
      CommandKept(s, lower, Overridden);
      OverrideKept(t, i, lower + 1);
      KeptOn(s, t, OverrideBelow(s, i, lower));
    }
  }

  /** Putting in an entry that has not run. */
  lemma PutKept(s: State, h: Held, i: nat)
    requires !h.started && Shaped(s) && i < LAYERS
    ensures Kept(s, s.(dflt := Some(h))) && Kept(s, s.(combat := Some(h)))
    ensures Kept(s, s.(commands := s.commands[i := Some(h)])) && Kept(s, s.(claims := s.claims + [h]))
  {
  }

  lemma SwapKept(s: State)
    ensures Kept(s, Swapped(s))
    ensures Kept(s, s.(fallback := s.dflt)) && Kept(s, s.(fallback := None)) && Kept(s, s.(last := s.last + 1))
  {
  }

  // ----- the operations, as far as the selection goes ----------------------------------------------------------------

  /** The number of the entry that a request brings up to date in place, if it does. */
  function UpdatedFrom(s: State, op: Op): Option<nat>
    requires Shaped(s)
  {
    if !op.DoRequest? || Refused(s, op.request, op.discarding) then None
    else if LayerOf(op.request.kind) == CombatLayer then (if s.combat.Some? then Some(s.combat.value.arrival) else None)
    else if LayerOf(op.request.kind) == ControlLayer then
      var i := ClaimIndex(s.claims, op.request.claim);
      if i < |s.claims| then Some(s.claims[i].arrival) else None
    else None
  }

  /** Like Kept, but one entry that had run may have been brought up to the newest number. */
  ghost predicate Descends(s: State, t: State, from: Option<nat>) {
    && t.blocked == s.blocked && t.mobility == s.mobility
    && s.log <= t.log
         && (forall i {:trigger t.log[i]} :: |s.log| <= i < |t.log| ==>
         t.log[i].what == Finished || t.log[i].what == DefaultSwapped)
    && (forall h {:trigger Entry(t, h)} :: Entry(t, h) && h.started ==>
         Entry(s, h) || (h.arrival == t.last == s.last + 1 && from.Some? && exists g ::
           Entry(s, g) && g.started && g.arrival == from.value))
  }

  lemma KeptDescends(s: State, t: State, from: Option<nat>)
    requires Kept(s, t)
    ensures Descends(s, t, from)
  {
    hide Entry;
  }

  lemma RequestDefaultKept(s: State, held: Held, policy: Policy, empty: bool)
    requires Shaped(s) && !held.started
    ensures Kept(s, RequestDefault(s, held, policy, empty))
  {
    if held.kind == Idle && !empty {
      var scripted := s.commands[SCRIPTED];
      if scripted.Some? && scripted.value.kind == Idle {
        KeptSame(s);
      } else {
        CommandKept(s, SCRIPTED, Superseded);
        var t := FinishCommand(s, SCRIPTED, Superseded);
        PutKept(t, held, SCRIPTED);
        hide Kept, FinishCommand;
        KeptOn(s, t, t.(commands := t.commands[SCRIPTED := Some(held)]));
      }
    } else {
      PushedKept(s, held);
      var t := Pushed(s, held);
      hide Kept, Pushed, FinishCommand, FinishCombat;
      if policy == Override {
        SlotsKept(t, Overridden);
        var u := FinishCombat(t, Overridden);
        CommandKept(u, SCRIPTED, Overridden);
        var v := FinishCommand(u, SCRIPTED, Overridden);
        CommandKept(v, DISTRACT, Overridden);
        KeptOn(s, t, u);
        KeptOn(s, u, v);
        KeptOn(s, v, FinishCommand(v, DISTRACT, Overridden));
      }
      RequestDefaultIs(s, held, policy, empty);
    }
  }

  lemma RequestDefaultIs(s: State, held: Held, policy: Policy, empty: bool)
    requires Shaped(s) && !(held.kind == Idle && !empty)
    ensures RequestDefault(s, held, policy, empty)
         == if policy == Override
           then FinishCommand(FinishCommand(FinishCombat(Pushed(s, held), Overridden), SCRIPTED, Overridden),
             DISTRACT, Overridden)
            else Pushed(s, held)
  {
    hide FinishCombat, FinishCommand;
  }

  lemma PushedKept(s: State, held: Held)
    requires !held.started
    ensures Kept(s, Pushed(s, held))
  {
  }

  lemma RequestCommandKept(s: State, held: Held, i: nat, policy: Policy)
    requires Shaped(s) && i < LAYERS && !held.started
    ensures Kept(s, RequestCommand(s, held, i, policy))
  {
    hide Kept, FinishCommand, OverrideBelow, FinishCombat;
    CommandKept(s, i, Superseded);
    var t := FinishCommand(s, i, Superseded);
    if policy == Override {
      OverrideKept(t, i, SCRIPTED);
      var u := OverrideBelow(t, i, SCRIPTED);
      SlotsKept(u, Overridden);
      KeptOn(s, t, u);
      KeptOn(s, u, FinishCombat(u, Overridden));
      t := FinishCombat(u, Overridden);
    }
    PutKept(t, held, i);
    KeptOn(s, t, t.(commands := t.commands[i := Some(held)]));
  }

  lemma SelfExpiredKept(s: State, layer: Layer)
    requires Shaped(s)
    ensures Kept(s, SelfExpired(s, layer).(last := s.last + 1))
    ensures SelfExpired(s, layer).combat == s.combat && SelfExpired(s, layer).claims == s.claims
    ensures SelfExpired(s, layer).dflt == s.dflt && SelfExpired(s, layer).fallback == s.fallback
      && SelfExpired(s, layer).last == s.last
  {
    var before := Selected(s);
    if before.Some? && SelfExpiring(before.value.kind) && LayerOf(before.value.kind) != layer {
      CommandKept(s, Index(LayerOf(before.value.kind)), Cancelled);
    } else {
      KeptSame(s);
    }
    var t := SelfExpired(s, layer);
    assert t.last == s.last;
    SwapKept(t);
    hide Kept, SelfExpired;
    KeptOn(s, t, t.(last := t.last + 1));
  }

  lemma ClaimPlaced(s: State, t: State, held: Held)
    requires Kept(s, t) && t.claims == s.claims && t.last == s.last + 1 == held.arrival && !held.started
    ensures var i := ClaimIndex(s.claims, held.claim);
      Descends(s, RequestClaim(t, held), if i < |s.claims| then Some(s.claims[i].arrival) else None)
  {
    var i := ClaimIndex(s.claims, held.claim);
    var u := RequestClaim(t, held);
    if i < |s.claims| {
      var g := s.claims[i];
      assert g in s.claims && Entry(s, g);
      forall h {:trigger Entry(u, h)} | Entry(u, h) && h.started
        ensures Entry(s, h) || (h.arrival == u.last == s.last + 1 && g.started)
      {
        if h == g.(kind := held.kind, id := held.id, arrival := held.arrival) {
        } else {
          assert Entry(t, h);
        }
      }
    } else {
      forall h {:trigger Entry(u, h)} | Entry(u, h) && h.started ensures Entry(s, h) {
        assert Entry(t, h);
      }
    }
  }

  lemma CombatPlaced(s: State, t: State, held: Held)
    requires Kept(s, t) && t.combat == s.combat && t.last == s.last + 1 == held.arrival && !held.started
    ensures Descends(s, RequestCombat(t, held), if s.combat.Some? then Some(s.combat.value.arrival) else None)
  {
    var u := RequestCombat(t, held);
    if s.combat.Some? { assert Entry(s, s.combat.value); }
    forall h {:trigger Entry(u, h)} | Entry(u, h) && h.started
      ensures Entry(s, h) || (s.combat.Some? && h.arrival == u.last == s.last + 1 && s.combat.value.started)
    {
      if u.combat != Some(h) || s.combat.None? { assert Entry(t, h); }
    }
  }

  lemma PlacedDescends(s: State, request: MoveRequest, discarding: bool)
    requires Shaped(s) && !Refused(s, request, discarding)
    ensures var t := SelfExpired(s, LayerOf(request.kind)).(last := s.last + 1);
      Descends(s, Placed(t, request, RequestHeld(s, request)), UpdatedFrom(s, DoRequest(request, discarding)))
  {
    hide Kept, Descends, RequestDefault, RequestCombat, RequestClaim, RequestCommand, SelfExpired, Selected, PolicyOf;
    var t, held := SelfExpired(s, LayerOf(request.kind)).(last := s.last + 1), RequestHeld(s, request);
    var policy := PolicyOf(request.kind, request.resumeCombat);
    SelfExpiredKept(s, LayerOf(request.kind));
    assert held.arrival == t.last && !held.started && held.kind == request.kind;
    assert LayerOf(request.kind) == ControlLayer ==> held.claim == request.claim;
    match LayerOf(request.kind)
    case DefaultLayer =>
      RequestDefaultKept(t, held, policy, Selected(t).None?);
      KeptOn(s, t, RequestDefault(t, held, policy, Selected(t).None?));
      KeptDescends(s, RequestDefault(t, held, policy, Selected(t).None?), None);
    case CombatLayer => CombatPlaced(s, t, held);
    case ControlLayer => ClaimPlaced(s, t, held);
    case _ =>
      var i := Index(LayerOf(request.kind));
      RequestCommandKept(t, held, i, policy);
      KeptOn(s, t, RequestCommand(t, held, i, policy));
      KeptDescends(s, RequestCommand(t, held, i, policy), None);
  }

  // ----- every operation in one of five forms ------------------------------------------------------------------------

  datatype Form = Same | Compared | Paused | Unnoticed | Ended

  /** r follows from s by way of t. */
  ghost predicate Formed(s: State, op: Op, r: State, t: State, form: Form) {
    && Shaped(s) && Shaped(t) && Shaped(r)
    && match form
       case Same => r == s
       case Compared => Descends(s, t, UpdatedFrom(s, op)) && r == Reselected(t, Selected(s))
       case Paused => t == s.(mobility := t.mobility) && r == Reconciled(t)
       case Unnoticed => t == s.(mobility := t.mobility) && r == t && t.mobility.Reasons() == s.mobility.Reasons()
       case Ended => Kept(s, t) && r == t.(mobility := r.mobility, blocked := 0) && Selected(r).None?
  }

  lemma FormCompared(s: State, op: Op, r: State, t: State)
    requires Shaped(s) && Shaped(t) && Shaped(r) && Kept(s, t) && r == Reselected(t, Selected(s))
    ensures Formed(s, op, r, t, Compared)
  {
    hide Kept, Descends, Reselected, Selected, UpdatedFrom;
    KeptDescends(s, t, UpdatedFrom(s, op));
  }

  lemma RequestForm(s: State, op: Op) returns (t: State, form: Form)
    requires Shaped(s) && op.DoRequest?
    ensures Formed(s, op, Step(s, op), t, form)
  {
    hide Descends, Reselected, Selected, UpdatedFrom, Placed, SelfExpired, RequestDefault, RequestCombat,
      RequestClaim, RequestCommand, PolicyOf;
    if Refused(s, op.request, op.discarding) {
      t, form := s, Same;
    } else {
      RequestIs(s, op.request, op.discarding);
      PlacedDescends(s, op.request, op.discarding);
      t := Placed(SelfExpired(s, LayerOf(op.request.kind)).(last := s.last + 1), op.request,
          RequestHeld(s, op.request));
      form := Compared;
    }
  }

  lemma InstallForm(s: State, op: Op) returns (t: State, form: Form)
    requires Shaped(s) && op.DoInstallDefault?
    ensures Formed(s, op, Step(s, op), t, form)
  {
    hide Kept, Reselected, Selected, Swapped;
    var held := Stamped(s, op.kind, 0, 0);
    t := Swapped(s).(dflt := Some(held), fallback := None, last := s.last + 1);
    form := Compared;
    InstallKept(s, held);
    FormCompared(s, op, Step(s, op), t);
  }

  lemma InstallKept(s: State, held: Held)
    requires !held.started
    ensures Kept(s, Swapped(s).(dflt := Some(held), fallback := None, last := s.last + 1))
  {
  }

  lemma ClearForm(s: State, op: Op) returns (t: State, form: Form)
    requires Shaped(s) && op.DoClear?
    ensures Formed(s, op, Step(s, op), t, form)
  {
    hide Kept, FinishCommands, FinishCombat, FinishClaims, FinishDefault, FinishFallback, PopDefault, Reselected,
      Selected;
    var u := FinishCommands(s, SCRIPTED, Cleared);
    CommandsKept(s, SCRIPTED, Cleared);
    SlotsKept(u, Cleared);
    t := FinishCombat(u, Cleared);
    KeptOn(s, u, t);
    if op.all {
      var a := FinishClaims(t, None, Cleared);
      ClaimsKept(t, None, Cleared);
      KeptOn(s, t, a);
      SlotsKept(a, Cleared);
      var b := FinishDefault(a, Cleared);
      KeptOn(s, a, b);
      SlotsKept(b, Cleared);
      t := FinishFallback(b, Cleared);
      KeptOn(s, b, t);
    } else if t.fallback.Some? {
      SlotsKept(t, Cleared);
      KeptOn(s, t, PopDefault(t, Cleared));
      t := PopDefault(t, Cleared);
    }
    form := Compared;
    FormCompared(s, op, Step(s, op), t);
  }

  /** Finishing the selection, whatever layer it is on. */
  lemma FinishForm(s: State, op: Op, reason: FinishReason) returns (t: State, form: Form)
    requires Shaped(s)
    ensures Formed(s, op, FinishSelected(s, reason), t, form)
  {
    hide Kept, FinishCombat, FinishClaim, FinishCommand, PopDefault, Reselected, Selected;
    SlotsKept(s, reason);
    form := Compared;
    match SelectedLayer(s)
    case None => t, form := s, Same;
    case Some(DefaultLayer) => t := PopDefault(s, reason); FormCompared(s, op, FinishSelected(s, reason), t);
    case Some(CombatLayer) => t := FinishCombat(s, reason); FormCompared(s, op, FinishSelected(s, reason), t);
    case Some(ControlLayer) =>
      var i := BestClaim(s.claims, |s.claims|);
      ClaimKept(s, i, reason);
      t := FinishClaim(s, i, reason);
      FinishClaimShaped(s, i, reason);
      FormCompared(s, op, FinishSelected(s, reason), t);
    case Some(layer) =>
      CommandKept(s, Index(layer), reason);
      t := FinishCommand(s, Index(layer), reason);
      FormCompared(s, op, FinishSelected(s, reason), t);
  }

  lemma FinishClaimShaped(s: State, i: nat, reason: FinishReason)
    requires Shaped(s) && i < |s.claims|
    ensures Shaped(FinishClaim(s, i, reason))
  {
  }

  lemma ExpireForm(s: State, op: Op) returns (t: State, form: Form)
    requires Shaped(s) && (op.DoExpire? || op.DoExpireSelected?)
    ensures Formed(s, op, Step(s, op), t, form)
  {
    hide Kept, FinishCombat, FinishClaim, FinishCommand, PopDefault, Reselected, Selected, FinishSelected;
    t, form := s, Same;
    SlotsKept(s, TargetLost);
    SlotsKept(s, Expired);
    if op.DoExpireSelected? {
      match SelectedLayer(s)
      case None =>
      case Some(DefaultLayer) =>
        if s.fallback.Some? {
          t, form := PopDefault(s, if s.dflt.value.kind == Follow then TargetLost else Expired), Compared;
          FormCompared(s, op, Step(s, op), t);
        }
      case Some(CombatLayer) => t, form := FinishForm(s, op, TargetLost);
      case Some(ControlLayer) =>
      case Some(_) => t, form := FinishForm(s, op, Expired);
    } else if LayerOf(op.expired) == ControlLayer {
      var b := NewestOfKind(s.claims, op.expired, |s.claims|);
      if b.Some? {
        ClaimKept(s, b.value, Expired);
        FinishClaimShaped(s, b.value, Expired);
        t, form := FinishClaim(s, b.value, Expired), Compared;
        FormCompared(s, op, Step(s, op), t);
      }
    } else {
      var b := HighestOfKind(s.commands, op.expired, LAYERS);
      if b.Some? {
        CommandKept(s, b.value, Expired);
        t, form := FinishCommand(s, b.value, Expired), Compared;
        FormCompared(s, op, Step(s, op), t);
      } else if s.combat.Some? && s.combat.value.kind == op.expired {
        t, form := FinishCombat(s, TargetLost), Compared;
        FormCompared(s, op, Step(s, op), t);
      } else if s.dflt.Some? && s.dflt.value.kind == op.expired && s.fallback.Some? {
        t, form := PopDefault(s, if op.expired == Follow then TargetLost else Expired), Compared;
        FormCompared(s, op, Step(s, op), t);
      }
    }
  }

  lemma ControlForm(s: State, op: Op) returns (t: State, form: Form)
    requires Shaped(s) && (op.DoCancelControl? || op.DoRelease? || op.DoNotifyCombat?)
    ensures Formed(s, op, Step(s, op), t, form)
  {
    hide Kept, FinishClaim, FinishClaims, FinishCommand, Reselected, Selected;
    if op.DoCancelControl? {
      ClaimsKept(s, Some(op.cancelled), Cancelled);
      t, form := FinishClaims(s, Some(op.cancelled), Cancelled), Compared;
      FormCompared(s, op, Step(s, op), t);
    } else if op.DoNotifyCombat? {
      CommandKept(s, DISTRACT, Cancelled);
      t, form := FinishCommand(s, DISTRACT, Cancelled), Compared;
      FormCompared(s, op, Step(s, op), t);
    } else {
      var i := ClaimIndex(s.claims, op.claim);
      if i < |s.claims| {
        ClaimKept(s, i, Cancelled);
        FinishClaimShaped(s, i, Cancelled);
        t, form := FinishClaim(s, i, Cancelled), Compared;
        FormCompared(s, op, Step(s, op), t);
      } else {
        t, form := s, Same;
      }
    }
  }

  lemma DieForm(s: State, op: Op) returns (t: State, form: Form)
    requires Shaped(s) && op.DoDie?
    ensures Formed(s, op, Step(s, op), t, form)
  {
    hide FinishDefault, FinishFallback, FinishCombat, FinishCommand, FinishClaims, Kept;
    form := Ended;
    var c := FinishCombat(FinishFallback(FinishDefault(s, Died), Died), Died);
    var e := FinishCommand(FinishCommand(c, 2, Died), 3, Died);
    var f := FinishClaims(e, None, Died);
    t := FinishCommand(FinishCommand(f, 5, Died), 6, Died);
    LowerEnded(s);
    UpperEnded(e);
    KeptOn(s, e, t);
    NothingHeld(s, c, e, f, t);
  }

  lemma LowerEnded(s: State)
    requires Shaped(s)
    ensures var c := FinishCombat(FinishFallback(FinishDefault(s, Died), Died), Died);
      Shaped(c) && Kept(s, FinishCommand(FinishCommand(c, 2, Died), 3, Died))
  {
    hide Kept, FinishDefault, FinishFallback, FinishCombat, FinishCommand;
    var a := FinishDefault(s, Died);
    var b := FinishFallback(a, Died);
    var c := FinishCombat(b, Died);
    var d := FinishCommand(c, 2, Died);
    SlotsKept(s, Died);
    SlotsKept(a, Died);
    SlotsKept(b, Died);
    CommandKept(c, 2, Died);
    CommandKept(d, 3, Died);
    KeptOn(s, a, b);
    KeptOn(s, b, c);
    KeptOn(s, c, d);
    KeptOn(s, d, FinishCommand(d, 3, Died));
  }

  lemma UpperEnded(e: State)
    requires Shaped(e)
    ensures var f := FinishClaims(e, None, Died);
      Shaped(f) && Kept(e, FinishCommand(FinishCommand(f, 5, Died), 6, Died))
  {
    hide Kept, FinishCommand, FinishClaims;
    var f := FinishClaims(e, None, Died);
    var g := FinishCommand(f, 5, Died);
    ClaimsKept(e, None, Died);
    CommandKept(f, 5, Died);
    CommandKept(g, 6, Died);
    KeptOn(e, f, g);
    KeptOn(e, g, FinishCommand(g, 6, Died));
  }

  /** After a death every place is empty. */
  lemma NothingHeld(s: State, c: State, e: State, f: State, t: State)
    requires Shaped(s) && c == FinishCombat(FinishFallback(FinishDefault(s, Died), Died), Died)
    requires e == FinishCommand(FinishCommand(c, 2, Died), 3, Died) && f == FinishClaims(e, None, Died)
    requires t == FinishCommand(FinishCommand(f, 5, Died), 6, Died)
    ensures t.dflt.None? && t.fallback.None? && t.combat.None? && t.claims == []
    ensures t.commands[2].None? && t.commands[3].None? && t.commands[5].None? && t.commands[6].None?
  {
    hide FinishCommand, FinishClaims, Kept;
    ClaimsKept(e, None, Died);
  }

  lemma InhibitForm(s: State, op: Op) returns (t: State, form: Form)
    requires Shaped(s) && (op.DoInhibit? || op.DoUninhibit?)
    ensures Formed(s, op, Step(s, op), t, form)
    ensures form != Compared && form != Ended
  {
    hide Reconciled, Selected;
    var r := Step(s, op);
    if op.DoInhibit? {
      t := s.(mobility := s.mobility.With(op.what, s.mobility.Of(op.what) + [op.source]));
      form := if op.source in s.mobility.Of(op.what) then Same else if s.mobility.Of(op.what) == [] then Paused
        else Unnoticed;
    } else {
      t := s.(mobility := s.mobility.With(op.whatEnds, Dropped(s.mobility.Of(op.whatEnds), op.sourceEnds)));
      form := if op.sourceEnds !in s.mobility.Of(op.whatEnds) then Same
              else if t.mobility.Of(op.whatEnds) == [] then Paused else Unnoticed;
    }
  }

  /** The five forms cover every operation. */
  lemma StepForm(s: State, op: Op) returns (t: State, form: Form)
    requires Shaped(s)
    ensures Formed(s, op, Step(s, op), t, form)
  {
    hide *;
    StepIs(s, op);
    match op
    case DoInstallDefault(_) => t, form := InstallForm(s, op);
    case DoRequest(_, _) => t, form := RequestForm(s, op);
    case DoClear(_) => t, form := ClearForm(s, op);
    case DoExpireSelected => t, form := ExpireForm(s, op);
    case DoExpire(_) => t, form := ExpireForm(s, op);
    case DoFinishSelected(reason) => t, form := FinishForm(s, op, reason);
    case DoCancelControl(_) => t, form := ControlForm(s, op);
    case DoRelease(_) => t, form := ControlForm(s, op);
    case DoNotifyCombat => t, form := ControlForm(s, op);
    case DoDie => t, form := DieForm(s, op);
    case DoInhibit(_, _) => t, form := InhibitForm(s, op);
    case DoUninhibit(_, _) => t, form := InhibitForm(s, op);
  }

  // ----- the selection and the pause after every operation -----------------------------------------------------------

  /** The pause the table asks for: the number of the selected entry if it does not tick, else 0. */
  function PauseDue(s: State): nat
    requires Shaped(s)
  {
    if Selected(s).Some? && !Evaluate(s).ticks then Selected(s).value.arrival else 0
  }

  ghost predicate Settled(s: State) {
    && Shaped(s) && s.blocked == PauseDue(s)
    && (Selected(s).Some? ==> Selected(s).value.started)
  }

  lemma {:induction false} BestIgnoresStarted(claims: seq<Held>, claims': seq<Held>, n: nat)
    requires 0 < n <= |claims| == |claims'|
    requires forall i {:trigger claims'[i]} :: 0 <= i < |claims| ==>
      claims'[i].kind == claims[i].kind && claims'[i].arrival == claims[i].arrival
    ensures BestClaim(claims', n) == BestClaim(claims, n)
    decreases n
  {
    if n > 1 { BestIgnoresStarted(claims, claims', n - 1); }
  }

  /** Starting the selected entry changes nothing else about it, and nothing about the reasons. */
  lemma StartedSame(s: State)
    requires Shaped(s)
    ensures SelectedLayer(Started(s)) == SelectedLayer(s) && Reasons(Started(s)) == Reasons(s)
    ensures Selected(Started(s)) == if Selected(s).None? then None else Some(Selected(s).value.(started := true))
  {
    var t := Started(s);
    if SelectedLayer(s) == Some(ControlLayer) {
      BestIgnoresStarted(s.claims, t.claims, |s.claims|);
      ClaimKinds(s.claims, t.claims, Fear);
      ClaimKinds(s.claims, t.claims, Confused);
    }
  }

  lemma ClaimKinds(claims: seq<Held>, claims': seq<Held>, kind: Kind)
    requires |claims| == |claims'| && forall i {:trigger claims'[i]} :: 0 <= i < |claims| ==>
      claims'[i].kind == claims[i].kind
    ensures HasClaim(claims', kind) == HasClaim(claims, kind)
  {
    if HasClaim(claims, kind) {
      var i :| 0 <= i < |claims| && claims[i].kind == kind;
      assert claims'[i].kind == kind;
    }
  }

  /**
   The selection and the verdict depend on neither the log nor the pause; the selection not on the block state either.
   */
  lemma SameSelection(s: State, r: State)
    requires Shaped(s) && r == s.(log := r.log, blocked := r.blocked, mobility := r.mobility)
    ensures Shaped(r) && Selected(r) == Selected(s) && SelectedLayer(r) == SelectedLayer(s)
    ensures r.mobility == s.mobility ==> Evaluate(r) == Evaluate(s)
  {
    hide BestClaim;
  }

  lemma ReconciledIs(s: State)
    requires Shaped(s)
    ensures var r := Reconciled(s);
      r == s.(log := r.log, blocked := PauseDue(s)) && s.log <= r.log && |r.log| <= |s.log| + 1
  {
    hide Evaluate, Selected;
  }

  /** Reconciling leaves the selection alone and sets the pause that is due. */
  lemma ReconciledSettles(s: State)
    requires Shaped(s)
    ensures var r := Reconciled(s);
      Shaped(r) && Selected(r) == Selected(s) && r.blocked == PauseDue(r) && PauseDue(r) == PauseDue(s)
    ensures var r := Reconciled(s);
      r == s.(log := r.log, blocked := r.blocked) && s.log <= r.log && |r.log| <= |s.log| + 1
  {
    hide Reconciled, Evaluate, Selected, SelectedLayer;
    ReconciledIs(s);
    SameSelection(s, Reconciled(s));
  }

  lemma ChangedSame(s: State, before: Option<Held>)
    requires Shaped(s)
    ensures Changed(s, before) == s.(log := Changed(s, before).log) && s.log <= Changed(s, before).log
    ensures Selected(Changed(s, before)) == Selected(s)
  {
  }

  lemma ReselectedSettles(s: State, before: Option<Held>)
    requires Shaped(s)
    ensures Settled(Reselected(s, before))
    ensures Selected(Reselected(s, before))
      == if Selected(s).None? then None else Some(Selected(s).value.(started := true))
  {
    hide Reselected, Reconciled, Started, Changed, PauseDue, Selected;
    ReselectedIs(s, before);
    ChangedSame(s, before);
    StartedSame(Changed(s, before));
    ReconciledSettles(Started(Changed(s, before)));
  }

  lemma SameReasonsSettled(s: State, t: State)
    requires Settled(s) && t == s.(mobility := t.mobility) && t.mobility.Reasons() == s.mobility.Reasons()
    ensures Settled(t)
  {
    assert Reasons(t) == Reasons(s);
  }

  lemma EndedSettled(s: State, t: State, r: State)
    requires Shaped(r) && Kept(s, t) && r == t.(mobility := r.mobility, blocked := 0) && Selected(r).None?
    ensures Settled(r)
  {
  }

  lemma FormSettles(s: State, op: Op, r: State, t: State, form: Form)
    requires Settled(s) && Formed(s, op, r, t, form)
    ensures Settled(r)
  {
    hide Settled, Descends, Kept, UpdatedFrom, Reselected, Reconciled, PauseDue, Selected;
    match form
    case Same =>
    case Compared => ReselectedSettles(t, Selected(s));
    case Paused =>
      SelectionStarted(s);
      SameSelection(s, t);
      PausedSettles(t);
    case Unnoticed => SameReasonsSettled(s, t);
    case Ended => EndedSettled(s, t, r);
  }

  lemma SelectionStarted(s: State)
    requires Settled(s)
    ensures Shaped(s) && (Selected(s).Some? ==> Selected(s).value.started)
  {
  }

  lemma PausedSettles(t: State)
    requires Shaped(t) && (Selected(t).Some? ==> Selected(t).value.started)
    ensures Settled(Reconciled(t))
  {
    hide Reconciled, PauseDue;
    ReconciledSettles(t);
  }

  /** Every operation leaves the selection started and the pause as due. */
  lemma StepSettles(s: State, op: Op)
    requires Settled(s)
    ensures Settled(Step(s, op))
  {
    hide *;
    SettledShaped(s);
    var t, form := StepForm(s, op);
    FormSettles(s, op, Step(s, op), t, form);
  }

  lemma ReselectedSlots(s: State, before: Option<Held>)
    requires Shaped(s)
    ensures Reselected(s, before).dflt.Some? == s.dflt.Some? && Reselected(s, before).fallback == s.fallback
  {
    hide Reselected, Reconciled, Changed, PauseDue, BestClaim;
    ReselectedIs(s, before);
    ChangedSame(s, before);
    ReconciledSettles(Started(Changed(s, before)));
  }

  lemma RequestParks(s: State, request: MoveRequest, discarding: bool)
    requires Shaped(s) && ParkedUnder(s) && !Refused(s, request, discarding)
    ensures ParkedUnder(Request(s, request, discarding))
  {
    hide Selected, Reselected, SelfExpired, Request, FinishCommand, OverrideBelow, RequestCommand, PolicyOf;
    RequestIs(s, request, discarding);
    var t := SelfExpired(s, LayerOf(request.kind)).(last := s.last + 1);
    var held := RequestHeld(s, request);
    ReselectedSlots(Placed(t, request, held), Selected(s));
    assert ParkedUnder(Placed(t, request, held));
  }

  /** Assertion of the decision record: a parked default stays under another, whatever the operation. */
  lemma StepParks(s: State, op: Op)
    requires Shaped(s) && ParkedUnder(s)
    ensures ParkedUnder(Step(s, op))
  {
    StepIs(s, op);
    if op.DoRequest? {
      if !Refused(s, op.request, op.discarding) { RequestParks(s, op.request, op.discarding); }
    } else if op.DoInhibit? || op.DoUninhibit? {
      InhibitParks(s, op);
    } else if op.DoExpire? || op.DoExpireSelected? || op.DoFinishSelected? {
      ExpireParks(s, op);
    } else {
      OtherParks(s, op);
    }
  }

  lemma InhibitParks(s: State, op: Op)
    requires Shaped(s) && ParkedUnder(s) && (op.DoInhibit? || op.DoUninhibit?)
    ensures ParkedUnder(Step(s, op))
  {
    hide Selected, Evaluate;
  }

  lemma ParksAfter(t: State, before: Option<Held>)
    requires Shaped(t) && ParkedUnder(t)
    ensures ParkedUnder(Reselected(t, before))
  {
    ReselectedSlots(t, before);
  }

  lemma FinishParks(s: State, reason: FinishReason)
    requires Shaped(s) && ParkedUnder(s)
    ensures ParkedUnder(FinishSelected(s, reason))
  {
    hide Reselected, Selected, FinishCommand;
    match SelectedLayer(s)
    case None =>
    case Some(DefaultLayer) => ParksAfter(PopDefault(s, reason), Selected(s));
    case Some(CombatLayer) => ParksAfter(FinishCombat(s, reason), Selected(s));
    case Some(ControlLayer) => ParksAfter(FinishClaim(s, BestClaim(s.claims, |s.claims|), reason), Selected(s));
    case Some(layer) => ParksAfter(FinishCommand(s, Index(layer), reason), Selected(s));
  }

  lemma PiecesPark(s: State)
    requires Shaped(s) && ParkedUnder(s)
    ensures forall reason :: Shaped(PopDefault(s, reason)) && ParkedUnder(PopDefault(s, reason))
    ensures forall reason :: Shaped(FinishCombat(s, reason)) && ParkedUnder(FinishCombat(s, reason))
    ensures forall i: nat, reason | i < |s.claims| ::
      Shaped(FinishClaim(s, i, reason)) && ParkedUnder(FinishClaim(s, i, reason))
    ensures forall i: nat, reason | i < LAYERS :: ParkedUnder(FinishCommand(s, i, reason))
  {
  }

  lemma ExpireParks(s: State, op: Op)
    requires Shaped(s) && ParkedUnder(s) && (op.DoExpire? || op.DoExpireSelected? || op.DoFinishSelected?)
    ensures ParkedUnder(Step(s, op))
  {
    hide Reselected, Selected, FinishSelected, FinishCommand, FinishCombat, FinishClaim, PopDefault, LayerOf;
    PiecesPark(s);
    forall reason ensures ParkedUnder(FinishSelected(s, reason)) { FinishParks(s, reason); }
    ParksAfter(PopDefault(s, Expired), Selected(s));
    ParksAfter(PopDefault(s, TargetLost), Selected(s));
    ParksAfter(FinishCombat(s, TargetLost), Selected(s));
    if op.DoExpire? {
      var b, c := NewestOfKind(s.claims, op.expired, |s.claims|), HighestOfKind(s.commands, op.expired, LAYERS);
      if b.Some? { ParksAfter(FinishClaim(s, b.value, Expired), Selected(s)); }
      if c.Some? { ParksAfter(FinishCommand(s, c.value, Expired), Selected(s)); }
    }
  }

  lemma OtherParks(s: State, op: Op)
    requires Shaped(s) && ParkedUnder(s)
    requires op.DoInstallDefault? || op.DoClear? || op.DoCancelControl? || op.DoRelease?
      || op.DoNotifyCombat? || op.DoDie?
    ensures ParkedUnder(Step(s, op))
  {
    hide Reselected, Selected, FinishCommand, FinishCommands, FinishClaims;
    match op
    case DoInstallDefault(kind) =>
      ParksAfter(Swapped(s).(dflt := Some(Stamped(s, kind, 0, 0)), fallback := None, last := s.last + 1), Selected(s));
    case DoClear(all) =>
      var t := FinishCombat(FinishCommands(s, SCRIPTED, Cleared), Cleared);
      var u := if all then FinishFallback(FinishDefault(FinishClaims(t, None, Cleared), Cleared), Cleared)
               else if t.fallback.Some? then PopDefault(t, Cleared) else t;
      ParksAfter(u, Selected(s));
    case DoCancelControl(kind) => ParksAfter(FinishClaims(s, Some(kind), Cancelled), Selected(s));
    case DoRelease(claim) =>
      var i := ClaimIndex(s.claims, claim);
      if i < |s.claims| { ParksAfter(FinishClaim(s, i, Cancelled), Selected(s)); }
    case DoNotifyCombat => ParksAfter(FinishCommand(s, DISTRACT, Cancelled), Selected(s));
    case DoDie =>
  }

  // ----- runs --------------------------------------------------------------------------------------------------------

  /**
   Safety over every run: the numbers handed out balance, a parked default lies under another, the
   selection has been started and the pause is the one due.
   */
  lemma {:induction false} RunIsSafe(ops: seq<Op>) returns (fate: Fates)
    ensures Ledger(Run(ops), fate) && ParkedUnder(Run(ops)) && Settled(Run(ops))
    decreases |ops|
  {
    hide Ledger, ParkedUnder, Settled, Step;
    if ops == [] {
      fate := map[];
      FreshIsSafe();
    } else {
      var prior, op := ops[..|ops| - 1], ops[|ops| - 1];
      var f := RunIsSafe(prior);
      SettledShaped(Run(prior));
      fate := StepKeeps(Run(prior), f, op);
      StepParks(Run(prior), op);
      StepSettles(Run(prior), op);
    }
  }

  lemma SettledShaped(s: State)
    requires Settled(s)
    ensures Shaped(s)
  {
  }

  lemma FreshIsSafe()
    ensures Ledger(Fresh(), map[]) && ParkedUnder(Fresh()) && Settled(Fresh())
  {
  }

  /** No entry is ever finished twice in a run. */
  lemma FinishedOnce(ops: seq<Op>, i: nat, j: nat)
    requires i < j < |Run(ops).log| && Run(ops).log[i].what == Finished && Run(ops).log[j].what == Finished
    ensures Run(ops).log[i].arrival != Run(ops).log[j].arrival
  {
    hide Settled;
    var fate := RunIsSafe(ops);
  }

  /** The table in force is the server's. */
  ghost predicate ServerTable() {
    forall c: Class, r: set<Reason> {:trigger DECIDE(c, r)} :: DECIDE(c, r) == Table(c, r)
  }

  /**
   With the server's table: whatever a dead unit has selected is paused, nothing else pauses a flight, and
   neither a stun nor a root pauses a distraction.
   */
  lemma PausedByTable(ops: seq<Op>)
    requires ServerTable() && Selected(Run(ops)).Some?
    ensures var s := Run(ops); s.mobility.dead != [] ==> s.blocked == Selected(s).value.arrival
    ensures var s := Run(ops); s.mobility.dead == [] && SelectedLayer(s) == Some(TaxiLayer) ==> s.blocked == 0
    ensures var s := Run(ops); s.mobility.dead == [] && SelectedLayer(s) == Some(DistractLayer) ==> s.blocked == 0
  {
    var fate := RunIsSafe(ops);
    hide Ledger, Run, Selected, SelectedLayer;
    DeadReason(Run(ops));
  }

  lemma DeadReason(s: State)
    requires Shaped(s)
    ensures ReasonDead in Reasons(s) <==> s.mobility.dead != []
  {
  }

  // ----- blocks and resumes ------------------------------------------------------------------------------------------

  ghost predicate LogsIn(s: State, r: State, what: EventKind, reason: FinishReason, arrival: nat) {
    exists i :: |s.log| <= i < |r.log| && r.log[i].what == what && r.log[i].reason == reason
      && r.log[i].arrival == arrival
  }

  /** What reconciling logs, if anything, is the one pause or the one resume it sets or takes off. */
  lemma ReconciledLogs(u: State)
    requires Shaped(u)
    ensures u.log <= Reconciled(u).log && |Reconciled(u).log| <= |u.log| + 1
    ensures |Reconciled(u).log| > |u.log| ==> PauseEvent(u, Reconciled(u).blocked, Reconciled(u).log[|u.log|])
    ensures Reconciled(u).blocked != 0 && Reconciled(u).blocked != u.blocked ==>
      |Reconciled(u).log| > |u.log| && Reconciled(u).log[|u.log|].what == Suspended
        && Reconciled(u).log[|u.log|].arrival == Reconciled(u).blocked
  {
    hide Evaluate, Selected;
  }

  /** e pauses the selected entry, which is then the paused one, or resumes it, which was. */
  ghost predicate PauseEvent(u: State, blocked: nat, e: Event)
    requires Shaped(u)
  {
    && e.reason == Blocked && Selected(u).Some? && e.arrival == Selected(u).value.arrival
    && ((e.what == Suspended && blocked == e.arrival)
         || (e.what == Resumed && u.blocked == e.arrival != 0 && blocked == 0))
  }

  /** The selection is entry a, which has run and is not the newest arrival. */
  ghost predicate Exposed(t: State, a: nat)
    requires Shaped(t)
  {
    Selected(t).Some? && Selected(t).value.started && a == Selected(t).value.arrival != t.last
  }

  /**
   What comparing the selections logs: the old one cut short, and the new one resumed if it ran and is not the newest
   arrival.
   */
  lemma ChangedLogs(t: State, before: Option<Held>)
    requires Shaped(t)
    ensures forall i {:trigger Changed(t, before).log[i]} :: |t.log| <= i < |Changed(t, before).log| ==>
      || (Changed(t, before).log[i].what == Suspended && Changed(t, before).log[i].reason == Cut)
      || (Changed(t, before).log[i].what == Resumed && Changed(t, before).log[i].reason == Arrived
        && Exposed(t, Changed(t, before).log[i].arrival))
  {
    hide Selected, StillHeld;
  }

  /** What an event of a step says when it resumes: the exposed selection, or the paused entry. */
  ghost predicate Resumes(s: State, r: State, t: State, e: Event)
    requires Shaped(r) && Shaped(t)
  {
    && (e.what == Resumed && e.reason == Arrived ==> Exposed(t, e.arrival))
    && (e.what == Resumed && e.reason == Blocked ==>
         s.blocked == e.arrival != 0 && r.blocked == 0 && Selected(r).Some? && Selected(r).value.arrival == e.arrival)
  }

  lemma ComparedLogs(s: State, op: Op, r: State, t: State)
    requires Formed(s, op, r, t, Compared)
    ensures forall i {:trigger r.log[i]} :: |s.log| <= i < |r.log| ==> Resumes(s, r, t, r.log[i])
    ensures r.blocked != 0 && r.blocked != s.blocked ==> LogsIn(s, r, Suspended, Blocked, r.blocked)
  {
    var c := Changed(t, Selected(s));
    var u := Started(c);
    ReselectedIs(t, Selected(s));
    ChangedSame(t, Selected(s));
    ChangedLogs(t, Selected(s));
    assert u.log == c.log && u.blocked == c.blocked;
    ReconciledLogs(u);
    ReconciledSettles(u);
    hide Reselected, Reconciled, Started, Changed, PauseDue, Selected, UpdatedFrom, Exposed;
    forall i {:trigger r.log[i]} | |s.log| <= i < |r.log| ensures Resumes(s, r, t, r.log[i]) {
      if i < |t.log| {
        assert r.log[i] == t.log[i];
      } else if i < |c.log| {
        assert r.log[i] == c.log[i];
      } else {
        assert i == |u.log|;
      }
    }
    if r.blocked != 0 && r.blocked != s.blocked { assert r.log[|u.log|].arrival == r.blocked; }
  }

  /** A step that logs the end of a pause found the entry paused and still selected; a step that pauses logs it. */
  lemma StepPauses(s: State, op: Op, b: nat)
    requires Shaped(s)
    ensures LogsIn(s, Step(s, op), Resumed, Blocked, b) ==>
      s.blocked == b != 0 && Step(s, op).blocked == 0 && Selected(Step(s, op)).Some?
        && Selected(Step(s, op)).value.arrival == b
    ensures Step(s, op).blocked == b != 0 && s.blocked != b ==> LogsIn(s, Step(s, op), Suspended, Blocked, b)
  {
    hide *;
    var t, form := StepForm(s, op);
    if form == Compared {
      ComparedPauses(s, op, Step(s, op), t, b);
    } else {
      OtherPauses(s, op, Step(s, op), t, form, b);
    }
  }

  lemma ComparedPauses(s: State, op: Op, r: State, t: State, b: nat)
    requires Formed(s, op, r, t, Compared)
    ensures LogsIn(s, r, Resumed, Blocked, b) ==>
      s.blocked == b != 0 && r.blocked == 0 && Selected(r).Some? && Selected(r).value.arrival == b
    ensures r.blocked == b != 0 && s.blocked != b ==> LogsIn(s, r, Suspended, Blocked, b)
  {
    ComparedLogs(s, op, r, t);
    hide Formed, Selected;
  }

  lemma OtherPauses(s: State, op: Op, r: State, t: State, form: Form, b: nat)
    requires Formed(s, op, r, t, form) && form != Compared
    ensures LogsIn(s, r, Resumed, Blocked, b) ==>
      s.blocked == b != 0 && r.blocked == 0 && Selected(r).Some? && Selected(r).value.arrival == b
    ensures r.blocked == b != 0 && s.blocked != b ==> LogsIn(s, r, Suspended, Blocked, b)
  {
    hide Selected, Descends, UpdatedFrom, Reselected, Reconciled;
    if form == Paused {
      ReconciledLogs(t);
      ReconciledSettles(t);
      hide PauseDue;
      if r.blocked != 0 && t.blocked != r.blocked { assert r.log[|t.log|].arrival == r.blocked; }
    }
  }

  /** Step m of the run logs this event for entry b. */
  ghost predicate LogsAt(ops: seq<Op>, m: nat, what: EventKind, reason: FinishReason, b: nat) {
    m < |ops| && LogsIn(Run(ops[..m]), Run(ops[..m + 1]), what, reason, b)
  }

  ghost predicate SelectedAt(ops: seq<Op>, k: nat, b: nat) {
    k <= |ops| && Selected(Run(ops[..k])).Some? && Selected(Run(ops[..k])).value.arrival == b
  }

  /** Entry b is the selection after each of the steps m to n - 1. */
  ghost predicate StaysSelected(ops: seq<Op>, m: nat, n: nat, b: nat) {
    m <= n <= |ops| && forall k {:trigger SelectedAt(ops, k, b)} :: m < k <= n ==> SelectedAt(ops, k, b)
  }

  ghost predicate PausedAt(ops: seq<Op>, k: nat, b: nat) {
    k <= |ops| && Run(ops[..k]).blocked == b
  }

  /** Entry b is paused after each of the steps m to n - 1. */
  ghost predicate StaysPaused(ops: seq<Op>, m: nat, n: nat, b: nat) {
    m <= n <= |ops| && forall k {:trigger PausedAt(ops, k, b)} :: m < k <= n ==> PausedAt(ops, k, b)
  }

  lemma PausedOneMore(ops: seq<Op>, m: nat, n: nat, b: nat)
    requires StaysPaused(ops, m, n, b) && n < |ops| && Run(ops[..n + 1]).blocked == b
    ensures StaysPaused(ops, m, n + 1, b)
  {
    hide Run;
    assert PausedAt(ops, n + 1, b);
    hide PausedAt;
  }

  lemma OneMore(ops: seq<Op>, m: nat, n: nat, b: nat)
    requires StaysSelected(ops, m, n, b) && SelectedAt(ops, n + 1, b)
    ensures StaysSelected(ops, m, n + 1, b)
  {
    assert n + 1 <= |ops|;
    hide SelectedAt;
  }

  lemma NoneYet(ops: seq<Op>, m: nat, b: nat)
    requires m <= |ops|
    ensures StaysSelected(ops, m, m, b) && StaysPaused(ops, m, m, b)
  {
  }

  /** A step that leaves b paused either found it paused or logs the pause; b is selected after it. */
  lemma PausingStep(ops: seq<Op>, n: nat, b: nat)
    requires n < |ops| && Run(ops[..n + 1]).blocked == b != 0
    ensures Run(ops[..n]).blocked == b || LogsAt(ops, n, Suspended, Blocked, b)
    ensures SelectedAt(ops, n + 1, b)
  {
    hide Run, Step, Selected, LogsIn;
    PausedIsSelected(ops[..n + 1], b);
    RunOn(ops, n);
    var s := Run(ops[..n]);
    StepPauses(s, ops[n], b);
  }

  /** If entry b is paused after n steps, some step paused it and it has stayed selected since. */
  lemma {:induction false} PausedSince(ops: seq<Op>, n: nat, b: nat) returns (m: nat)
    requires n <= |ops| && Run(ops[..n]).blocked == b != 0
    ensures m < n && LogsAt(ops, m, Suspended, Blocked, b) && StaysSelected(ops, m, n, b) && StaysPaused(ops, m, n, b)
    decreases n
  {
    hide *;
    NothingPausedAtFirst(ops);
    PausingStep(ops, n - 1, b);
    if Run(ops[..n - 1]).blocked == b {
      m := PausedSince(ops, n - 1, b);
    } else {
      m := n - 1;
      NoneYet(ops, m, b);
    }
    OneMore(ops, m, n - 1, b);
    PausedOneMore(ops, m, n - 1, b);
  }

  lemma NothingPausedAtFirst(ops: seq<Op>)
    ensures Run(ops[..0]).blocked == 0
  {
    assert ops[..0] == [];
  }

  lemma RunOn(ops: seq<Op>, n: nat)
    requires n < |ops|
    ensures Run(ops[..n + 1]) == Step(Run(ops[..n]), ops[n])
  {
    assert ops[..n + 1][..n] == ops[..n];
  }

  lemma PausedIsSelected(ops: seq<Op>, b: nat)
    requires Run(ops).blocked == b != 0
    ensures Selected(Run(ops)).Some? && Selected(Run(ops)).value.arrival == b
  {
    hide Ledger, Run, Evaluate, Selected;
    var fate := RunIsSafe(ops);
  }

  /** What the step that ends a pause found and leaves. */
  lemma ResumingStep(ops: seq<Op>, n: nat, b: nat)
    requires LogsAt(ops, n, Resumed, Blocked, b)
    ensures n < |ops| && Run(ops[..n]).blocked == b != 0 && Run(ops[..n + 1]).blocked == 0 && SelectedAt(ops, n + 1, b)
  {
    hide Run, Step, Selected, LogsIn;
    RunOn(ops, n);
    var s := Run(ops[..n]);
    StepPauses(s, ops[n], b);
  }

  /**
   Every end of a pause answers an earlier beginning for the same entry, which stayed selected and paused throughout.
   */
  lemma ResumeAnswersPause(ops: seq<Op>, n: nat, b: nat) returns (m: nat)
    requires LogsAt(ops, n, Resumed, Blocked, b)
    ensures m < n && LogsAt(ops, m, Suspended, Blocked, b) && StaysSelected(ops, m, n + 1, b)
      && StaysPaused(ops, m, n, b)
  {
    hide *;
    ResumingStep(ops, n, b);
    m := PausedSince(ops, n, b);
    OneMore(ops, m, n, b);
  }

  /** The answering is one to one: a later end answers a beginning after the earlier end. */
  lemma LaterResumeLaterPause(ops: seq<Op>, n: nat, n': nat, m': nat, b: nat)
    requires n < n' && LogsAt(ops, n, Resumed, Blocked, b) && b != 0 && StaysPaused(ops, m', n', b)
    ensures n < m'
  {
    hide Run, LogsAt;
    ResumingStep(ops, n, b);
    var still := PausedAt(ops, n + 1, b);
  }

  // ----- resumed entries ran before ----------------------------------------------------------------------------------

  /**
   The numbers under which an entry has run after these operations: it was the selection at the end of one
   of them, or was brought up to date in place from a number that had run.
   */
  ghost function HasRun(ops: seq<Op>): set<nat> {
    if ops == [] then {}
    else
      var prior := ops[..|ops| - 1];
      RanMore(HasRun(prior), Run(prior), ops[|ops| - 1], Run(ops))
  }

  ghost function RanMore(ran: set<nat>, s: State, op: Op, r: State): set<nat>
    requires Shaped(s) && Shaped(r)
  {
    var from := UpdatedFrom(s, op);
    ran
    + (if Selected(r).Some? then {Selected(r).value.arrival} else {})
    + (if from.Some? && from.value in ran then {s.last + 1} else {})
  }

  lemma StartedEntries(u: State, h: Held)
    requires Shaped(u) && Entry(Started(u), h)
    ensures Entry(u, h) || (Selected(u).Some? && h == Selected(u).value.(started := true))
  {
  }

  lemma SameEntries(u: State, r: State, h: Held)
    requires r == u.(log := r.log, blocked := r.blocked) && Entry(r, h)
    ensures Entry(u, h)
  {
  }

  lemma ReselectedEntries(t: State, before: Option<Held>, h: Held)
    requires Shaped(t) && Entry(Reselected(t, before), h)
    ensures Entry(t, h) || (Selected(t).Some? && h == Selected(t).value.(started := true))
  {
    hide Reselected, Reconciled, Started, Changed, PauseDue, Selected, Entry;
    var c := Changed(t, before);
    ReselectedIs(t, before);
    ChangedSame(t, before);
    ReconciledSettles(Started(c));
    SameEntries(Started(c), Reconciled(Started(c)), h);
    StartedEntries(c, h);
    if Entry(c, h) { assert c.blocked == t.blocked; SameEntries(t, c, h); }
  }

  /**
   An entry in view after a step that has run is the selection, or was there and had run, or was brought up to date from
   one that had.
   */
  lemma FormEntries(s: State, op: Op, r: State, t: State, form: Form, h: Held)
    requires Formed(s, op, r, t, form) && Entry(r, h) && h.started
    ensures || Entry(s, h)
            || (Selected(r).Some? && h.arrival == Selected(r).value.arrival)
            || (h.arrival == s.last + 1 && UpdatedFrom(s, op).Some? && exists g ::
              Entry(s, g) && g.started && g.arrival == UpdatedFrom(s, op).value)
  {
    match form
    case Same =>
    case Compared =>
      ReselectedSettles(t, Selected(s));
      hide Reselected, Selected, UpdatedFrom, Settled, Entry;
      ReselectedEntries(t, Selected(s), h);
    case Paused =>
      ReconciledSettles(t);
      hide Reconciled, PauseDue, Selected, UpdatedFrom;
    case Unnoticed => hide Selected, UpdatedFrom;
    case Ended => assert Entry(t, h);
  }

  lemma RunMore(ops: seq<Op>, op: Op)
    ensures Run(ops + [op]) == Step(Run(ops), op)
  {
    hide Step;
    var more := ops + [op];
    assert more[..|more| - 1] == ops;
  }

  lemma HasRunIs(ops: seq<Op>)
    requires ops != []
    ensures HasRun(ops) == RanMore(HasRun(ops[..|ops| - 1]), Run(ops[..|ops| - 1]), ops[|ops| - 1], Run(ops))
  {
    hide Run, UpdatedFrom, Selected;
  }

  /** HasRun after one more operation. */
  lemma HasRunMore(ops: seq<Op>, op: Op)
    ensures HasRun(ops) <= HasRun(ops + [op])
    ensures Selected(Run(ops + [op])).Some? ==> Selected(Run(ops + [op])).value.arrival in HasRun(ops + [op])
    ensures UpdatedFrom(Run(ops), op).Some? && UpdatedFrom(Run(ops), op).value in HasRun(ops) ==>
      Run(ops).last + 1 in HasRun(ops + [op])
  {
    hide *;
    var more := ops + [op];
    assert more[..|more| - 1] == ops && more[|more| - 1] == op;
    HasRunIs(more);
    RanMoreHas(HasRun(ops), Run(ops), op, Run(more));
  }

  lemma RanMoreHas(ran: set<nat>, s: State, op: Op, r: State)
    requires Shaped(s) && Shaped(r)
    ensures ran <= RanMore(ran, s, op, r)
    ensures Selected(r).Some? ==> Selected(r).value.arrival in RanMore(ran, s, op, r)
    ensures UpdatedFrom(s, op).Some? && UpdatedFrom(s, op).value in ran ==> s.last + 1 in RanMore(ran, s, op, r)
  {
    hide Selected, UpdatedFrom;
  }

  lemma {:induction false} StartedHasRun(ops: seq<Op>, h: Held)
    requires Entry(Run(ops), h) && h.started
    ensures h.arrival in HasRun(ops)
    decreases |ops|, 0
  {
    if ops == [] {
      assert false;
    } else {
      var prior, op := ops[..|ops| - 1], ops[|ops| - 1];
      assert ops == prior + [op];
      hide *;
      StartedHasRunStep(prior, op, h);
    }
  }

  lemma StartedHasRunStep(prior: seq<Op>, op: Op, h: Held)
    requires Entry(Run(prior + [op]), h) && h.started
    ensures h.arrival in HasRun(prior + [op])
    decreases |prior|, 1
  {
    hide *;
    HasRunMore(prior, op);
    RunMore(prior, op);
    var s, r := Run(prior), Run(prior + [op]);
    var t, form := StepForm(s, op);
    FormEntries(s, op, r, t, form, h);
    if Entry(s, h) {
      StartedHasRun(prior, h);
    } else if !(Selected(r).Some? && h.arrival == Selected(r).value.arrival) {
      var g :| Entry(s, g) && g.started && g.arrival == UpdatedFrom(s, op).value;
      StartedHasRun(prior, g);
    }
  }

  lemma SelectedEntry(t: State)
    requires Shaped(t) && Selected(t).Some?
    ensures Entry(t, Selected(t).value)
  {
  }

  /** Every resume as exposed again is for an entry that had run before the operation. */
  lemma ExposedHadRun(ops: seq<Op>, n: nat, a: nat)
    requires LogsAt(ops, n, Resumed, Arrived, a)
    ensures n < |ops| && a in HasRun(ops[..n])
  {
    hide Run, Step, HasRun, LogsIn, Formed;
    RunOn(ops, n);
    var s, r := Run(ops[..n]), Run(ops[..n + 1]);
    var t, form := StepForm(s, ops[n]);
    var h := ExposedEntry(s, ops[n], r, t, form, a);
    StartedHasRun(ops[..n], h);
  }

  lemma ExposedEntry(s: State, op: Op, r: State, t: State, form: Form, a: nat) returns (h: Held)
    requires Formed(s, op, r, t, form) && LogsIn(s, r, Resumed, Arrived, a)
    ensures Entry(s, h) && h.started && h.arrival == a
  {
    match form
    case Same => assert false;
    case Compared =>
      ComparedLogs(s, op, r, t);
      var i :| |s.log| <= i < |r.log| && r.log[i].what == Resumed && r.log[i].reason == Arrived
        && r.log[i].arrival == a;
      assert Resumes(s, r, t, r.log[i]);
      SelectedEntry(t);
      hide Selected, Reselected, UpdatedFrom, Entry;
      h := Selected(t).value;
    case Paused =>
      ReconciledLogs(t);
      hide Reconciled, Selected;
      assert false;
    case Unnoticed => assert false;
    case Ended => assert false;
  }
}
