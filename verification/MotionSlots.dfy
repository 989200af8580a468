/**
 Which slots an operation of the arbiter fills, empties and leaves, and what it says of those that go: stated slot by
 slot, kind by kind and operation by operation (src/motion/Arbiter.h:86-90, src/motion/Arbiter.cpp:38-92, 220-690).
 */
module MotionSlots {
  import opened MotionLedger
  import opened MotionModel
  import opened MotionRuns
  import opened MotionSelection

  // ----- what a request does to the slots ---------------------------------------------------------------------------

  const DEFAULT := 0
  const COMBAT := 1
  const FORCED := 5

  /** The slots by the numbers of their layers; the claims have none. */
  function Slot(s: State, i: nat): Option<Held>
    requires Shaped(s) && i < LAYERS
  {
    if i == DEFAULT then s.dflt else if i == COMBAT then s.combat else s.commands[i]
  }

  /** The same entry, which may have been started. */
  predicate Same(a: Option<Held>, b: Option<Held>) {
    a.Some? == b.Some? && (a.Some? ==> b.value == a.value.(started := b.value.started))
  }

  predicate SameClaims(a: seq<Held>, b: seq<Held>) {
    |a| == |b| && forall i {:trigger a[i]} {:trigger b[i]} :: 0 <= i < |a| ==> Same(Some(a[i]), Some(b[i]))
  }

  /** The slots that a request takes over: everything below a flight, or below a walk home or to a point. */
  function Empties(kind: Kind, resumeCombat: bool): set<nat> {
    match kind
    case Wander => {COMBAT, SCRIPTED, DISTRACT}
    case Patrol => {COMBAT, SCRIPTED, DISTRACT}
    case Home => {COMBAT}
    case Point => if resumeCombat then {} else {COMBAT}
    case Taxi => {COMBAT, SCRIPTED, DISTRACT, FORCED}
    case _ => {}
  }

  /** A walk home, a distraction or an effect that is selected ends when a request comes for another layer. */
  predicate EndsItself(s: State, kind: Kind, i: nat)
    requires Shaped(s)
  {
    && Selected(s).Some?
    && match Selected(s).value.kind
       case Home => i == SCRIPTED && kind != Home && kind != Point
       case Distract => i == DISTRACT && kind != Distract && kind != AssistDistract
       case Effect => i == FORCED && kind != Effect
       case _ => false
  }

  /** Whether something is left to select when it has. */
  predicate IdleCommands(s: State)
    requires Shaped(s)
  {
    exists layer {:trigger Occupied(s, layer)} :: Occupied(s, layer) && !EndsItself(s, Idle, Index(layer))
  }

  /** The slot a request is for. */
  function Place(s: State, kind: Kind): nat
    requires Shaped(s)
  {
    match kind
    case Idle => if IdleCommands(s) then SCRIPTED else DEFAULT
    case Wander => DEFAULT
    case Patrol => DEFAULT
    case Follow => DEFAULT
    case Chase => COMBAT
    case Point => SCRIPTED
    case Home => SCRIPTED
    case Distract => DISTRACT
    case AssistDistract => DISTRACT
    case Fear => CONTROL
    case Confused => CONTROL
    case Effect => FORCED
    case Taxi => TAXI
  }

  predicate HasIdle(slot: Option<Held>) {
    slot.Some? && slot.value.kind == Idle
  }

  /** What is in the slot afterwards: the request, unless it brings a chase up to date or an idle is there already. */
  function Put(s: State, request: MoveRequest, i: nat): Option<Held>
    requires Shaped(s) && i < LAYERS
  {
    if i == COMBAT && s.combat.Some? then Some(s.combat.value.(id := request.id, arrival := s.last + 1))
    else if i == SCRIPTED && request.kind == Idle && HasIdle(s.commands[i]) && !EndsItself(s, Idle, i)
      then s.commands[i]
    else Some(Held(request.kind, request.id, s.last + 1, 0, false))
  }

  /** The claims afterwards: the one of that identity is brought up to date where it is, or the request joins them. */
  ghost predicate Claimed(claims: seq<Held>, request: MoveRequest, arrival: nat, r: seq<Held>) {
    if exists i {:trigger claims[i]} :: 0 <= i < |claims| && claims[i].claim == request.claim then
      |r| == |claims| && exists i {:trigger claims[i]} ::
        && 0 <= i < |claims| && claims[i].claim == request.claim
        && (forall k {:trigger claims[k]} :: 0 <= k < i ==> claims[k].claim != request.claim)
        && SameClaims(claims[i := claims[i].(kind := request.kind, id := request.id, arrival := arrival)], r)
    else SameClaims(claims + [Held(request.kind, request.id, arrival, request.claim, false)], r)
  }

  /** Whether what is in the slot the request is for is superseded. */
  predicate Supersedes(s: State, request: MoveRequest, i: nat)
    requires Shaped(s) && i < LAYERS
  {
    SCRIPTED <= i && Put(s, request, i) != s.commands[i]
  }

  /** Why what is in a slot is finished by a request, if it is. */
  function Finishes(s: State, request: MoveRequest, i: nat): Option<FinishReason>
    requires Shaped(s) && i < LAYERS
  {
    if EndsItself(s, request.kind, i) then Some(Cancelled)
    else if i == Place(s, request.kind) then
      (if Supersedes(s, request, i) then Some(Superseded) else None)
    else if i in Empties(request.kind, request.resumeCombat) then Some(Overridden)
    else None
  }

  /** The log goes on from a to b, and says that h was finished. */
  ghost predicate Says(a: seq<Event>, b: seq<Event>, h: Held, reason: FinishReason) {
    exists i {:trigger b[i]} :: |a| <= i < |b| && b[i] == About(h, Finished, reason)
  }

  /** What a request that is not refused fills, empties and leaves. */
  ghost predicate Requested(s: State, request: MoveRequest, r: State)
    requires Shaped(s) && Shaped(r)
  {
    var place := Place(s, request.kind);
    && (forall i: nat {:trigger Slot(r, i)} :: i < LAYERS && i != CONTROL ==>
         if i == place then Same(Put(s, request, i), Slot(r, i))
         else if i in Empties(request.kind, request.resumeCombat) || EndsItself(s, request.kind, i)
           then Slot(r, i).None?
         else Same(Slot(s, i), Slot(r, i)))
    && (if place == DEFAULT && s.dflt.Some? && s.fallback.None? then r.fallback == s.dflt else r.fallback == s.fallback)
    && (if place == CONTROL then Claimed(s.claims, request, s.last + 1, r.claims) else SameClaims(s.claims, r.claims))
    && r.last == s.last + 1 && s.log <= r.log
    && forall i: nat {:trigger Slot(s, i)} ::
         i < LAYERS && i != CONTROL && Slot(s, i).Some? && Finishes(s, request, i).Some? ==>
           Says(s.log, r.log, Slot(s, i).value, Finishes(s, request, i).value)
  }

  lemma StartedSlots(c: State)
    requires Shaped(c)
    ensures forall i: nat {:trigger Slot(c, i)} :: i < LAYERS ==> Same(Slot(c, i), Slot(Started(c), i))
    ensures SameClaims(c.claims, Started(c).claims) && Started(c).fallback == c.fallback && Started(c).last == c.last
  {
  }

  /** Comparing selections, starting and pausing leave every slot as it is. */
  lemma ReselectedSame(t: State, b: Option<Held>)
    requires Shaped(t)
    ensures var r := Reselected(t, b);
      && (forall i: nat {:trigger Slot(r, i)} :: i < LAYERS ==> Same(Slot(t, i), Slot(r, i)))
      && SameClaims(t.claims, r.claims) && r.fallback == t.fallback && r.last == t.last && t.log <= r.log
  {
    ReselectedIs(t, b);
    ChangedSame(t, b);
    var c := Changed(t, b);
    StartedSlots(c);
    ReconciledSettles(Started(c));
    hide Reselected, Reconciled, Started, Changed, PauseDue, Selected;
    var r := Reselected(t, b);
    forall i: nat {:trigger Slot(r, i)} | i < LAYERS ensures Same(Slot(t, i), Slot(r, i)) {
      assert Slot(c, i) == Slot(t, i);
      assert Slot(r, i) == Slot(Started(c), i);
    }
  }

  // ----- emptying slots ---------------------------------------------------------------------------------------------

  /** The slots of gone are emptied for this reason, which is logged of what they held; nothing else changes. */
  ghost predicate Emptied(t: State, u: State, gone: set<nat>, reason: FinishReason)
    requires Shaped(t) && Shaped(u)
  {
    && (forall k: nat {:trigger Slot(u, k)} {:trigger Slot(t, k)} :: k < LAYERS && k != CONTROL ==>
         Slot(u, k) == if k in gone then None else Slot(t, k))
    && u.claims == t.claims && u.last == t.last && u.fallback == t.fallback && t.log <= u.log
    && forall k: nat {:trigger Slot(t, k)} :: k < LAYERS && k != CONTROL && k in gone && Slot(t, k).Some? ==>
         Says(t.log, u.log, Slot(t, k).value, reason)
  }

  lemma SaysOn(a: seq<Event>, b: seq<Event>, c: seq<Event>, h: Held, reason: FinishReason)
    requires a <= b <= c
    ensures Says(a, b, h, reason) || Says(b, c, h, reason) ==> Says(a, c, h, reason)
  {
    if i :| |a| <= i < |b| && b[i] == About(h, Finished, reason) { assert c[i] == b[i]; }
    if i :| |b| <= i < |c| && c[i] == About(h, Finished, reason) { assert c[i] == About(h, Finished, reason); }
  }

  lemma EmptiedOn(t: State, u: State, v: State, a: set<nat>, b: set<nat>, reason: FinishReason)
    requires Shaped(t) && Shaped(u) && Shaped(v) && Emptied(t, u, a, reason) && Emptied(u, v, b, reason)
    ensures Emptied(t, v, a + b, reason)
  {
    hide Says, Slot;
    forall k: nat {:trigger Slot(t, k)} | k < LAYERS && k != CONTROL && k in a + b && Slot(t, k).Some?
      ensures Says(t.log, v.log, Slot(t, k).value, reason)
    {
      SaysOn(t.log, u.log, v.log, Slot(t, k).value, reason);
      assert k !in a ==> Slot(u, k) == Slot(t, k);
    }
  }

  lemma NothingEmptied(t: State, reason: FinishReason)
    requires Shaped(t)
    ensures Emptied(t, t, {}, reason)
  {
  }

  lemma CombatEmptied(t: State, reason: FinishReason)
    requires Shaped(t)
    ensures Emptied(t, FinishCombat(t, reason), {COMBAT}, reason)
  {
    var u := FinishCombat(t, reason);
    if t.combat.Some? { assert u.log[|t.log|] == About(t.combat.value, Finished, reason); }
  }

  lemma CommandEmptied(t: State, i: nat, reason: FinishReason)
    requires Shaped(t) && SCRIPTED <= i < LAYERS
    ensures Emptied(t, FinishCommand(t, i, reason), {i}, reason)
  {
    var u := FinishCommand(t, i, reason);
    if t.commands[i].Some? { assert u.log[|t.log|] == About(t.commands[i].value, Finished, reason); }
  }

  /** The command slots from one number to below another. */
  function Between(lower: nat, i: nat): set<nat>
    decreases i - lower
  {
    if lower >= i then {} else (if lower == CONTROL then {} else {lower}) + Between(lower + 1, i)
  }

  lemma BetweenAre()
    ensures Between(SCRIPTED, SCRIPTED) == {} && Between(SCRIPTED, DISTRACT) == {SCRIPTED}
    ensures Between(SCRIPTED, FORCED) == {SCRIPTED, DISTRACT}
    ensures Between(SCRIPTED, TAXI) == {SCRIPTED, DISTRACT, FORCED}
    ensures Between(SCRIPTED, LAYERS) == {SCRIPTED, DISTRACT, FORCED, TAXI}
  {
    BetweenIs(SCRIPTED, 2);
    BetweenIs(SCRIPTED, 3);
    BetweenIs(SCRIPTED, 5);
    BetweenIs(SCRIPTED, 6);
    BetweenIs(SCRIPTED, 7);
  }

  lemma {:induction false} BetweenIs(lower: nat, i: nat)
    ensures forall k: nat {:trigger k in Between(lower, i)} ::
      k in Between(lower, i) <==> lower <= k < i && k != CONTROL
    decreases i - lower
  {
    if lower < i { BetweenIs(lower + 1, i); }
  }

  lemma {:induction false} BelowEmptied(t: State, i: nat, lower: nat)
    requires Shaped(t) && SCRIPTED <= lower && i < LAYERS
    ensures Emptied(t, OverrideBelow(t, i, lower), Between(lower, i), Overridden)
    decreases i - lower
  {
    hide Emptied, FinishCommand;
    if lower >= i {
      NothingEmptied(t, Overridden);
    } else {
      var c := if lower == CONTROL then t else FinishCommand(t, lower, Overridden);
      NothingEmptied(t, Overridden);
      CommandEmptied(t, lower, Overridden);
      BelowEmptied(c, i, lower + 1);
      EmptiedOn(t, c, OverrideBelow(c, i, lower + 1), if lower == CONTROL then {} else {lower}, Between(lower + 1, i),
        Overridden);
    }
  }

  lemma {:induction false} CommandsEmptied(t: State, from: nat, reason: FinishReason)
    requires Shaped(t) && SCRIPTED <= from
    ensures Emptied(t, FinishCommands(t, from, reason), Between(from, LAYERS), reason)
    decreases LAYERS - from
  {
    hide Emptied, FinishCommand;
    if from >= LAYERS {
      NothingEmptied(t, reason);
    } else {
      var c := FinishCommand(t, from, reason);
      CommandEmptied(t, from, reason);
      if from == CONTROL { ControlUnused(t, c, reason); }
      CommandsEmptied(c, from + 1, reason);
      EmptiedOn(t, c, FinishCommands(c, from + 1, reason), if from == CONTROL then {} else {from},
        Between(from + 1, LAYERS), reason);
    }
  }

  lemma ControlUnused(t: State, c: State, reason: FinishReason)
    requires Shaped(t) && Shaped(c) && Emptied(t, c, {CONTROL}, reason)
    ensures Emptied(t, c, {}, reason)
  {
  }

  // ----- the pieces of a request ------------------------------------------------------------------------------------

  /** The self-expiring selection ends, if it does, and nothing else changes. */
  lemma ExpiredSlots(s: State, kind: Kind)
    requires Shaped(s)
    ensures Emptied(s, SelfExpired(s, LayerOf(kind)), EndingIn(s, kind), Cancelled)
  {
    hide Emptied, FinishCommand;
    NothingEmptied(s, Cancelled);
    EndingSlot(s, kind);
    var b := Selected(s);
    if b.Some? && SelfExpiring(b.value.kind) { CommandEmptied(s, Index(LayerOf(b.value.kind)), Cancelled); }
    hide Selected;
  }

  ghost function EndingIn(s: State, kind: Kind): (gone: set<nat>)
    requires Shaped(s)
  {
    set i: nat {:trigger EndsItself(s, kind, i)} | i < LAYERS && EndsItself(s, kind, i)
  }

  lemma EndingSlot(s: State, kind: Kind)
    requires Shaped(s)
    ensures var b := Selected(s);
      EndingIn(s, kind) ==
      if b.Some? && SelfExpiring(b.value.kind) && LayerOf(b.value.kind) != LayerOf(kind)
      then {Index(LayerOf(b.value.kind))} else {}
  {
    hide Selected;
    var b := Selected(s);
    forall i: nat
      ensures i in EndingIn(s, kind) <==>
        b.Some? && SelfExpiring(b.value.kind) && LayerOf(b.value.kind) != LayerOf(kind)
        && i == Index(LayerOf(b.value.kind))
    {
    }
  }

  /** Something is selected afterwards if something does not end itself. */
  lemma StillSelected(s: State)
    requires Shaped(s)
    ensures Selected(SelfExpired(s, DefaultLayer)).Some? <==> IdleCommands(s)
  {
    var t := SelfExpired(s, DefaultLayer);
    SelectionLaw(t);
    ExpiredSlots(s, Idle);
    hide SelfExpired, Selected, EndsItself;
    assert LayerOf(Idle) == DefaultLayer;
    forall layer {:trigger Occupied(t, layer)}
      ensures layer != ControlLayer ==> Occupied(t, layer) == (Occupied(s, layer) && !EndsItself(s, Idle, Index(layer)))
      ensures layer == ControlLayer ==> Occupied(t, layer) == Occupied(s, layer)
    {
      OccupiedSlot(s, layer);
      OccupiedSlot(t, layer);
    }
    NoClaimEnds(s);
    if IdleCommands(s) {
      var layer :| Occupied(s, layer) && !EndsItself(s, Idle, Index(layer));
      assert Occupied(t, layer);
    }
    if layer :| Occupied(t, layer) { assert Occupied(s, layer); }
  }

  lemma NoClaimEnds(s: State)
    requires Shaped(s)
    ensures !EndsItself(s, Idle, Index(ControlLayer))
  {
  }

  lemma OccupiedSlot(s: State, layer: Layer)
    requires Shaped(s)
    ensures layer != ControlLayer ==> Index(layer) != CONTROL && Occupied(s, layer) == Slot(s, Index(layer)).Some?
    ensures layer == ControlLayer ==> Index(layer) == CONTROL && Occupied(s, layer) == (s.claims != [])
  {
  }

  /**
   u has held in slot i, nothing in the slots of gone, and the rest as t has it; what was in gone was overridden, and
   what was in slot i, if it had to go, superseded.
   */
  ghost predicate Filled(t: State, u: State, i: nat, held: Option<Held>, gone: set<nat>, over: bool)
    requires Shaped(t) && Shaped(u)
  {
    && (forall k: nat {:trigger Slot(u, k)} :: k < LAYERS && k != CONTROL ==>
         Slot(u, k) == if k == i then held else if k in gone then None else Slot(t, k))
    && u.claims == t.claims && u.last == t.last && t.log <= u.log
    && (forall k: nat {:trigger Slot(t, k)} :: k < LAYERS && k != CONTROL && k != i && k in gone && Slot(t, k).Some? ==>
         Says(t.log, u.log, Slot(t, k).value, Overridden))
    && (over && i < LAYERS && Slot(t, i).Some? ==> Says(t.log, u.log, Slot(t, i).value, Superseded))
  }

  /** The new default is in, and the one before it parked if there was none. */
  lemma PushedFilled(t: State, held: Held)
    requires Shaped(t)
    ensures var u := Pushed(t, held);
      && Shaped(u) && Filled(t, u, DEFAULT, Some(held), {}, false)
      && u.fallback == if t.dflt.Some? && t.fallback.None? then t.dflt else t.fallback
  {
  }

  lemma FilledEmptied(t: State, u: State, v: State, i: nat, held: Option<Held>, gone: set<nat>, over: bool)
    requires Shaped(t) && Shaped(u) && Shaped(v) && Filled(t, u, i, held, {}, over) && Emptied(u, v, gone, Overridden)
    requires i !in gone
    ensures Filled(t, v, i, held, gone, over)
  {
    hide Says, Slot;
    forall k: nat {:trigger Slot(t, k)} | k < LAYERS && k != CONTROL && k != i && k in gone && Slot(t, k).Some?
      ensures Says(t.log, v.log, Slot(t, k).value, Overridden)
    {
      assert Slot(u, k) == Slot(t, k);
      SaysOn(t.log, u.log, v.log, Slot(t, k).value, Overridden);
    }
    if over && i < LAYERS && Slot(t, i).Some? { SaysOn(t.log, u.log, v.log, Slot(t, i).value, Superseded); }
  }

  lemma DefaultFilled(t: State, held: Held, policy: Policy)
    requires Shaped(t)
    ensures var u := RequestDefault(t, held, policy, true);
      && u.fallback == (if t.dflt.Some? && t.fallback.None? then t.dflt else t.fallback)
      && Filled(t, u, DEFAULT, Some(held), if policy == Override then {COMBAT, SCRIPTED, DISTRACT} else {}, false)
  {
    hide Filled, Emptied, FinishCombat, FinishCommand, RequestDefault, Pushed;
    RequestDefaultIs(t, held, policy, true);
    PushedFilled(t, held);
    var u := Pushed(t, held);
    if policy == Override {
      CombatEmptied(u, Overridden);
      var v := FinishCombat(u, Overridden);
      CommandEmptied(v, SCRIPTED, Overridden);
      var w := FinishCommand(v, SCRIPTED, Overridden);
      CommandEmptied(w, DISTRACT, Overridden);
      EmptiedOn(u, v, w, {COMBAT}, {SCRIPTED}, Overridden);
      var x := FinishCommand(w, DISTRACT, Overridden);
      EmptiedOn(u, w, x, {COMBAT} + {SCRIPTED}, {DISTRACT}, Overridden);
      assert {COMBAT} + {SCRIPTED} + {DISTRACT} == {COMBAT, SCRIPTED, DISTRACT};
      FilledEmptied(t, u, x, DEFAULT, Some(held), {COMBAT, SCRIPTED, DISTRACT}, false);
      FallbackStays(u, x, {COMBAT, SCRIPTED, DISTRACT}, Overridden);
    }
  }

  lemma FallbackStays(t: State, u: State, gone: set<nat>, reason: FinishReason)
    requires Shaped(t) && Shaped(u) && Emptied(t, u, gone, reason)
    ensures u.fallback == t.fallback && u.claims == t.claims && u.last == t.last && t.log <= u.log
  {
  }

  /** An idle request over something selected is a command, unless one is there. */
  lemma IdleFilled(t: State, held: Held, policy: Policy)
    requires Shaped(t) && held.kind == Idle
    ensures var u := RequestDefault(t, held, policy, false);
      && u.fallback == t.fallback
      && Filled(t, u, SCRIPTED, if HasIdle(t.commands[SCRIPTED]) then t.commands[SCRIPTED] else Some(held), {},
                !HasIdle(t.commands[SCRIPTED]))
  {
    hide Emptied, FinishCommand;
    if !HasIdle(t.commands[SCRIPTED]) { ReplacedFilled(t, held, SCRIPTED); }
    hide Filled;
  }

  /** What is in a command slot is superseded. */
  lemma ReplacedFilled(t: State, held: Held, i: nat)
    requires Shaped(t) && SCRIPTED <= i < LAYERS
    ensures var c := FinishCommand(t, i, Superseded);
      var u := c.(commands := c.commands[i := Some(held)]);
      Filled(t, u, i, Some(held), {}, i != CONTROL) && u.fallback == t.fallback
  {
    CommandEmptied(t, i, Superseded);
    hide Says;
  }

  /** The slots below a command that an overriding one takes. */
  function Below(i: nat): set<nat> {
    {COMBAT} + Between(SCRIPTED, i)
  }

  lemma CommandFilled(t: State, held: Held, i: nat, policy: Policy)
    requires Shaped(t) && i in {SCRIPTED, DISTRACT, FORCED, TAXI}
    ensures var u := RequestCommand(t, held, i, policy);
      u.fallback == t.fallback && Filled(t, u, i, Some(held), if policy == Override then Below(i) else {}, true)
  {
    hide Filled, Emptied, FinishCommand, FinishCombat, OverrideBelow;
    CommandEmptied(t, i, Superseded);
    var c := FinishCommand(t, i, Superseded);
    if policy == Override {
      BelowEmptied(c, i, SCRIPTED);
      var b := OverrideBelow(c, i, SCRIPTED);
      CombatEmptied(b, Overridden);
      EmptiedOn(c, b, FinishCombat(b, Overridden), Between(SCRIPTED, i), {COMBAT}, Overridden);
      assert Between(SCRIPTED, i) + {COMBAT} == Below(i);
      ReplacedPut(t, c, FinishCombat(b, Overridden), i, held, Below(i));
    } else {
      NothingEmptied(c, Overridden);
      ReplacedPut(t, c, c, i, held, {});
    }
  }

  lemma ReplacedPut(t: State, c: State, v: State, i: nat, held: Held, gone: set<nat>)
    requires Shaped(t) && Shaped(c) && Shaped(v) && SCRIPTED <= i < LAYERS && i != CONTROL
    requires Emptied(t, c, {i}, Superseded) && Emptied(c, v, gone, Overridden)
    ensures var u := v.(commands := v.commands[i := Some(held)]);
      u.fallback == t.fallback && Filled(t, u, i, Some(held), gone, true)
  {
    hide Says;
    forall k: nat {:trigger Slot(t, k)} | k < LAYERS && k != CONTROL && k != i && k in gone && Slot(t, k).Some?
      ensures Says(t.log, v.log, Slot(t, k).value, Overridden)
    {
      assert Slot(c, k) == Slot(t, k);
      SaysOn(t.log, c.log, v.log, Slot(t, k).value, Overridden);
    }
    if Slot(t, i).Some? { SaysOn(t.log, c.log, v.log, Slot(t, i).value, Superseded); }
    var u := v.(commands := v.commands[i := Some(held)]);
    forall k: nat {:trigger Slot(u, k)} | k < LAYERS && k != CONTROL
      ensures Slot(u, k) == if k == i then Some(held) else if k in gone then None else Slot(t, k)
    {
      assert k != i ==> Slot(u, k) == Slot(v, k);
    }
  }

  lemma {:induction false} ClaimFound(claims: seq<Held>, claim: nat)
    ensures ClaimIndex(claims, claim) < |claims| <==>
      exists i {:trigger claims[i]} :: 0 <= i < |claims| && claims[i].claim == claim
  {
    if i :| 0 <= i < |claims| && claims[i].claim == claim {
      assert claims[i].claim == claim;
    }
  }

  lemma ClaimFilled(t: State, request: MoveRequest, held: Held)
    requires held.kind == request.kind && held.id == request.id && held.claim == request.claim && !held.started
    ensures var u := RequestClaim(t, held);
      u == t.(claims := u.claims) && Claimed(t.claims, request, held.arrival, u.claims)
  {
    ClaimFound(t.claims, held.claim);
    var i, u := ClaimIndex(t.claims, held.claim), RequestClaim(t, held);
    if i < |t.claims| {
      var c := t.claims[i].(kind := request.kind, id := request.id, arrival := held.arrival);
      assert SameClaims(t.claims[i := c], u.claims);
    }
  }

  lemma ClaimedStarted(claims: seq<Held>, request: MoveRequest, arrival: nat, u: seq<Held>, r: seq<Held>)
    requires Claimed(claims, request, arrival, u) && SameClaims(u, r)
    ensures Claimed(claims, request, arrival, r)
  {
    if exists i {:trigger claims[i]} :: 0 <= i < |claims| && claims[i].claim == request.claim {
      var i :| && 0 <= i < |claims| && claims[i].claim == request.claim
        && (forall k {:trigger claims[k]} :: 0 <= k < i ==> claims[k].claim != request.claim)
        && SameClaims(claims[i := claims[i].(kind := request.kind, id := request.id, arrival := arrival)], u);
      SameOn(claims[i := claims[i].(kind := request.kind, id := request.id, arrival := arrival)], u, r);
    } else {
      SameOn(claims + [Held(request.kind, request.id, arrival, request.claim, false)], u, r);
    }
  }

  lemma SameOn(a: seq<Held>, b: seq<Held>, c: seq<Held>)
    requires SameClaims(a, b) && SameClaims(b, c)
    ensures SameClaims(a, c)
  {
  }

  /** The slots as the request leaves them, before the selection is compared. */
  ghost predicate PlacedSlots(s: State, request: MoveRequest, u: State)
    requires Shaped(s) && Shaped(u)
  {
    var place := Place(s, request.kind);
    && (forall i: nat {:trigger Slot(u, i)} :: i < LAYERS && i != CONTROL ==>
         Slot(u, i) ==
         if i == place then Put(s, request, i)
         else if i in Empties(request.kind, request.resumeCombat) || EndsItself(s, request.kind, i) then None
         else Slot(s, i))
    && (if place == DEFAULT && s.dflt.Some? && s.fallback.None? then u.fallback == s.dflt else u.fallback == s.fallback)
    && (if place == CONTROL then Claimed(s.claims, request, s.last + 1, u.claims) else u.claims == s.claims)
    && u.last == s.last + 1 && s.log <= u.log
    && forall i: nat {:trigger Slot(s, i)} ::
         i < LAYERS && i != CONTROL && Slot(s, i).Some? && Finishes(s, request, i).Some? ==>
           Says(s.log, u.log, Slot(s, i).value, Finishes(s, request, i).value)
  }

  /** The self-expiring selection has ended, and the number has been handed out. */
  ghost predicate Expired(s: State, kind: Kind, t: State)
    requires Shaped(s) && Shaped(t)
  {
    && (forall i: nat {:trigger Slot(t, i)} {:trigger Slot(s, i)} :: i < LAYERS && i != CONTROL ==>
         Slot(t, i) == if EndsItself(s, kind, i) then None else Slot(s, i))
    && t.claims == s.claims && t.fallback == s.fallback && t.last == s.last + 1 && s.log <= t.log
    && forall i: nat {:trigger Slot(s, i)} ::
         i < LAYERS && i != CONTROL && Slot(s, i).Some? && EndsItself(s, kind, i) ==>
           Says(s.log, t.log, Slot(s, i).value, Cancelled)
  }

  lemma NumberedSlots(s: State, kind: Kind)
    requires Shaped(s)
    ensures Shaped(SelfExpired(s, LayerOf(kind)).(last := s.last + 1))
    ensures Expired(s, kind, SelfExpired(s, LayerOf(kind)).(last := s.last + 1))
  {
    ExpiredSlots(s, kind);
    hide SelfExpired, EndsItself, Selected, Says;
    var e := SelfExpired(s, LayerOf(kind));
    var t := e.(last := s.last + 1);
    forall i: nat {:trigger Slot(t, i)} | i < LAYERS ensures Slot(t, i) == Slot(e, i) { }
  }

  lemma FromFilled(s: State, request: MoveRequest, t: State, u: State)
    requires Shaped(s) && Shaped(t) && Shaped(u) && Expired(s, request.kind, t)
    requires var place := Place(s, request.kind);
      && place != CONTROL && place < LAYERS
      && Filled(t, u, place, Put(s, request, place), Empties(request.kind, request.resumeCombat),
                Supersedes(s, request, place))
      && u.fallback == if place == DEFAULT && s.dflt.Some? && s.fallback.None? then s.dflt else s.fallback
    ensures PlacedSlots(s, request, u)
  {
    hide Place, Put, Empties, EndsItself, Says;
    forall i: nat {:trigger Slot(s, i)} |
      i < LAYERS && i != CONTROL && Slot(s, i).Some? && Finishes(s, request, i).Some?
      ensures Says(s.log, u.log, Slot(s, i).value, Finishes(s, request, i).value)
    {
      SaysOn(s.log, t.log, u.log, Slot(s, i).value, Finishes(s, request, i).value);
    }
  }

  lemma Placing(s: State, request: MoveRequest, t: State)
    requires Shaped(s) && t == SelfExpired(s, LayerOf(request.kind)).(last := s.last + 1)
    ensures Shaped(t) && PlacedSlots(s, request, Placed(t, request, RequestHeld(s, request)))
  {
    hide Selected, EndsItself, Placed, RequestHeld, Expired, PlacedSlots, SelfExpired;
    NumberedSlots(s, request.kind);
    match LayerOf(request.kind)
    case DefaultLayer => DefaultPlaced(s, request, t);
    case CombatLayer => ChasePlaced(s, request, t);
    case ControlLayer => ControlPlaced(s, request, t);
    case _ => CommandPlaced(s, request, t);
  }

  lemma ChasePlaced(s: State, request: MoveRequest, t: State)
    requires Shaped(s) && Shaped(t) && Expired(s, request.kind, t) && LayerOf(request.kind) == CombatLayer
    ensures PlacedSlots(s, request, Placed(t, request, RequestHeld(s, request)))
  {
    hide Selected, EndsItself, IdleCommands, PolicyOf, Says;
    var u := Placed(t, request, RequestHeld(s, request));
    assert Slot(t, COMBAT) == t.combat;
    NoOther(s, request.kind);
    forall i: nat {:trigger Slot(u, i)} | i < LAYERS && i != COMBAT ensures Slot(u, i) == Slot(t, i) { }
    FromFilled(s, request, t, u);
  }

  lemma NoOther(s: State, kind: Kind)
    requires Shaped(s)
    ensures !EndsItself(s, kind, COMBAT) && !EndsItself(s, kind, DEFAULT) && !EndsItself(s, kind, TAXI)
  {
    hide Selected;
  }

  lemma ControlPlaced(s: State, request: MoveRequest, t: State)
    requires Shaped(s) && Shaped(t) && Expired(s, request.kind, t) && LayerOf(request.kind) == ControlLayer
    ensures PlacedSlots(s, request, Placed(t, request, RequestHeld(s, request)))
  {
    hide Selected, EndsItself, IdleCommands, Claimed, PolicyOf, RequestClaim, Says;
    var held := RequestHeld(s, request);
    ClaimFilled(t, request, held);
    var u := Placed(t, request, held);
    assert u == RequestClaim(t, held);
    forall i: nat {:trigger Slot(u, i)} | i < LAYERS ensures Slot(u, i) == Slot(t, i) { }
  }

  lemma CommandPlaced(s: State, request: MoveRequest, t: State)
    requires Shaped(s) && Shaped(t) && Expired(s, request.kind, t)
    requires Index(LayerOf(request.kind)) in {SCRIPTED, DISTRACT, FORCED, TAXI}
    ensures PlacedSlots(s, request, Placed(t, request, RequestHeld(s, request)))
  {
    hide *;
    var held, i := RequestHeld(s, request), Index(LayerOf(request.kind));
    CommandFilled(t, held, i, PolicyOf(request.kind, request.resumeCombat));
    CommandIs(s, request, t);
    var u := Placed(t, request, held);
    LessOver(t, u, i, Some(held), Empties(request.kind, request.resumeCombat), Supersedes(s, request, i));
    FromFilled(s, request, t, u);
  }

  lemma CommandIs(s: State, request: MoveRequest, t: State)
    requires Shaped(s) && Shaped(t) && Expired(s, request.kind, t)
    requires Index(LayerOf(request.kind)) in {SCRIPTED, DISTRACT, FORCED, TAXI}
    ensures var held, i := RequestHeld(s, request), Index(LayerOf(request.kind));
      var policy := PolicyOf(request.kind, request.resumeCombat);
      && Placed(t, request, held) == RequestCommand(t, held, i, policy) && i == Place(s, request.kind)
      && DEFAULT < i < LAYERS && i != CONTROL && t.fallback == s.fallback && Put(s, request, i) == Some(held)
      && Empties(request.kind, request.resumeCombat) == (if policy == Override then Below(i) else {})
  {
    hide Selected, EndsItself, IdleCommands, RequestCommand, Says, Between;
    BetweenAre();
  }

  lemma LessOver(t: State, u: State, i: nat, held: Option<Held>, gone: set<nat>, over: bool)
    requires Shaped(t) && Shaped(u)
    ensures Filled(t, u, i, held, gone, true) ==> Filled(t, u, i, held, gone, over)
  {
    hide Says, Slot;
  }

  lemma DefaultPlaced(s: State, request: MoveRequest, t: State)
    requires Shaped(s) && Shaped(t) && LayerOf(request.kind) == DefaultLayer && Expired(s, request.kind, t)
    requires t == SelfExpired(s, LayerOf(request.kind)).(last := s.last + 1)
    ensures PlacedSlots(s, request, Placed(t, request, RequestHeld(s, request)))
  {
    hide *;
    var held := RequestHeld(s, request);
    var policy := PolicyOf(request.kind, request.resumeCombat);
    StillSelected(s);
    SameSelectionNumbered(SelfExpired(s, LayerOf(request.kind)), s.last + 1);
    NoOther(s, request.kind);
    var u := Placed(t, request, held);
    var empty := Selected(t).None?;
    DefaultIs(s, request, t, empty);
    if request.kind == Idle && !empty {
      IdleFilled(t, held, policy);
      var put := if HasIdle(t.commands[SCRIPTED]) then t.commands[SCRIPTED] else Some(held);
      IdleOver(s, request, t, u, put, !HasIdle(t.commands[SCRIPTED]));
    } else {
      DefaultFilled(t, held, policy);
      EmptyOrNot(t, held, policy, empty);
    }
    FromFilled(s, request, t, u);
  }

  lemma DefaultIs(s: State, request: MoveRequest, t: State, empty: bool)
    requires Shaped(s) && Shaped(t) && LayerOf(request.kind) == DefaultLayer && Expired(s, request.kind, t)
    requires empty == Selected(t).None? && (IdleCommands(s) <==> Selected(SelfExpired(s, DefaultLayer)).Some?)
    requires t == SelfExpired(s, LayerOf(request.kind)).(last := s.last + 1)
    requires Selected(t) == Selected(SelfExpired(s, LayerOf(request.kind)))
    requires !EndsItself(s, request.kind, DEFAULT)
    ensures var held := RequestHeld(s, request);
      var policy := PolicyOf(request.kind, request.resumeCombat);
      && Placed(t, request, held) == RequestDefault(t, held, policy, empty) && held.kind == request.kind
      && |t.commands| > SCRIPTED && DEFAULT != CONTROL && SCRIPTED != CONTROL && SCRIPTED < LAYERS && DEFAULT < LAYERS
      && t.fallback == s.fallback && t.dflt == s.dflt && (SCRIPTED == DEFAULT ==> false)
      && Empties(request.kind, request.resumeCombat)
           == (if policy == Override then {COMBAT, SCRIPTED, DISTRACT} else {})
      && (request.kind == Idle && !empty ==> Place(s, request.kind) == SCRIPTED && policy != Override)
      && (request.kind != Idle || empty ==>
           Place(s, request.kind) == DEFAULT && Put(s, request, DEFAULT) == Some(held)
             && !Supersedes(s, request, DEFAULT))
  {
    hide Selected, EndsItself, IdleCommands, RequestDefault, SelfExpired, Says;
    assert Slot(t, DEFAULT) == t.dflt;
  }

  lemma EmptyOrNot(t: State, held: Held, policy: Policy, empty: bool)
    requires Shaped(t) && (held.kind != Idle || empty)
    ensures RequestDefault(t, held, policy, empty) == RequestDefault(t, held, policy, true)
  {
    hide FinishCombat, FinishCommand;
  }

  lemma IdleOver(s: State, request: MoveRequest, t: State, u: State, put: Option<Held>, over: bool)
    requires Shaped(s) && Shaped(t) && Shaped(u) && Expired(s, request.kind, t) && request.kind == Idle
    requires Filled(t, u, SCRIPTED, put, {}, over) && over == !HasIdle(t.commands[SCRIPTED])
    requires put == if HasIdle(t.commands[SCRIPTED]) then t.commands[SCRIPTED] else Some(RequestHeld(s, request))
    ensures put == Put(s, request, SCRIPTED)
    ensures Filled(t, u, SCRIPTED, put, {}, Supersedes(s, request, SCRIPTED))
  {
    hide EndsItself, Says;
    assert Slot(t, SCRIPTED) == t.commands[SCRIPTED] && Slot(s, SCRIPTED) == s.commands[SCRIPTED];
  }

  lemma SameSelectionNumbered(s: State, n: nat)
    requires Shaped(s)
    ensures Shaped(s.(last := n)) && Selected(s.(last := n)) == Selected(s)
  {
    hide BestClaim;
  }

  /** Which slots a request fills, which it empties and which it leaves, for every kind. */
  lemma RequestSlots(s: State, request: MoveRequest, discarding: bool)
    requires Shaped(s)
    ensures Refused(s, request, discarding) ==> Request(s, request, discarding) == s
    ensures !Refused(s, request, discarding) ==> Requested(s, request, Request(s, request, discarding))
  {
    hide *;
    RefusedSame(s, request, discarding);
    if !Refused(s, request, discarding) {
      RequestIs(s, request, discarding);
      var t := SelfExpired(s, LayerOf(request.kind)).(last := s.last + 1);
      Placing(s, request, t);
      var u := Placed(t, request, RequestHeld(s, request));
      ReselectedSame(u, Selected(s));
      RequestedFrom(s, request, u, Request(s, request, discarding));
    }
  }

  lemma RefusedSame(s: State, request: MoveRequest, discarding: bool)
    requires Shaped(s)
    ensures Refused(s, request, discarding) ==> Request(s, request, discarding) == s
  {
    hide Refused;
  }

  lemma RequestedFrom(s: State, request: MoveRequest, u: State, r: State)
    requires Shaped(s) && Shaped(u) && PlacedSlots(s, request, u) && Shaped(r)
    requires forall i: nat {:trigger Slot(r, i)} :: i < LAYERS ==> Same(Slot(u, i), Slot(r, i))
    requires SameClaims(u.claims, r.claims) && r.fallback == u.fallback && r.last == u.last && u.log <= r.log
    ensures Requested(s, request, r)
  {
    hide Place, Put, Empties, EndsItself, Slot, Claimed, Finishes, Says;
    forall i: nat {:trigger Slot(r, i)} | i < LAYERS ensures Same(Slot(u, i), Slot(r, i)) { }
    forall i: nat {:trigger Slot(s, i)} |
      i < LAYERS && i != CONTROL && Slot(s, i).Some? && Finishes(s, request, i).Some?
      ensures Says(s.log, r.log, Slot(s, i).value, Finishes(s, request, i).value)
    {
      SaysOn(s.log, u.log, r.log, Slot(s, i).value, Finishes(s, request, i).value);
    }
    if Place(s, request.kind) == CONTROL {
      ClaimedStarted(s.claims, request, s.last + 1, u.claims, r.claims);
    }
  }

  // ----- what the other operations end ------------------------------------------------------------------------------

  /** The slot is that of the highest layer with anything in it. */
  ghost predicate OnTop(s: State, i: nat)
    requires Shaped(s)
  {
    exists layer {:trigger Highest(s, layer)} :: Highest(s, layer) && Index(layer) == i
  }

  /** Nothing above slot i is of the kind. */
  predicate NoneAbove(s: State, kind: Kind, i: nat)
    requires Shaped(s)
  {
    forall k {:trigger s.commands[k]} :: i < k < LAYERS && SCRIPTED <= k && s.commands[k].Some? ==>
      s.commands[k].value.kind != kind
  }

  /**
   Why an operation that is neither a request nor an installation ends what is in a slot over the default, if it does.
   */
  ghost function WhyEnds(s: State, op: Op, i: nat): Option<FinishReason>
    requires Shaped(s) && i < LAYERS
  {
    match op
    case DoClear(_) => Some(Cleared)
    case DoDie => Some(Died)
    case DoNotifyCombat => if i == DISTRACT then Some(Cancelled) else None
    case DoFinishSelected(reason) => if OnTop(s, i) then Some(reason) else None
    case DoExpireSelected => if OnTop(s, i) then Some(if i == COMBAT then TargetLost else MotionModel.Expired) else None
    case DoExpire(kind) =>
      if LayerOf(kind) != ControlLayer && Slot(s, i).Some? && Slot(s, i).value.kind == kind && NoneAbove(s, kind, i)
      then Some(if i == COMBAT then TargetLost else MotionModel.Expired)
      else None
    case _ => None
  }

  /** Claim i is gone, for this reason, and the others stay in their order. */
  ghost predicate OneGone(s: State, r: State, i: nat, reason: FinishReason) {
    && i < |s.claims| && SameClaims(s.claims[..i] + s.claims[i + 1..], r.claims)
    && Says(s.log, r.log, s.claims[i], reason)
  }

  /** The claims that are of other kinds. */
  function OtherKinds(claims: seq<Held>, kind: Kind): seq<Held> {
    if claims == [] then []
    else
      var rest := OtherKinds(claims[..|claims| - 1], kind);
      if claims[|claims| - 1].kind == kind then rest else rest + [claims[|claims| - 1]]
  }

  /** Every claim of the kind (of any kind when None) is logged as finished. */
  ghost predicate KindSaid(s: State, r: State, kind: Option<Kind>, reason: FinishReason) {
    forall c {:trigger c in s.claims} :: c in s.claims && (kind.None? || c.kind == kind.value) ==>
      Says(s.log, r.log, c, reason)
  }

  /** What becomes of the claims. */
  ghost predicate ClaimsLeft(s: State, op: Op, r: State)
    requires Shaped(s)
  {
    match op
    case DoClear(all) =>
      if all then r.claims == [] && KindSaid(s, r, None, Cleared) else SameClaims(s.claims, r.claims)
    case DoDie => r.claims == [] && KindSaid(s, r, None, Died)
    case DoCancelControl(kind) =>
      SameClaims(OtherKinds(s.claims, kind), r.claims) && KindSaid(s, r, Some(kind), Cancelled)
    case DoRelease(claim) =>
      if exists i {:trigger s.claims[i]} :: 0 <= i < |s.claims| && s.claims[i].claim == claim then
        exists i: nat {:trigger s.claims[i]} ::
          i < |s.claims| && s.claims[i].claim == claim && OneGone(s, r, i, Cancelled)
          && forall k {:trigger s.claims[k]} :: 0 <= k < i ==> s.claims[k].claim != claim
      else SameClaims(s.claims, r.claims)
    case DoFinishSelected(reason) =>
      if OnTop(s, CONTROL) then
        exists i: nat {:trigger s.claims[i]} ::
          i < |s.claims| && Ruling(s.claims, s.claims[i]) && OneGone(s, r, i, reason)
      else SameClaims(s.claims, r.claims)
    case DoExpire(kind) =>
      if LayerOf(kind) == ControlLayer && exists i {:trigger s.claims[i]} ::
        0 <= i < |s.claims| && s.claims[i].kind == kind
      then
        exists i: nat {:trigger s.claims[i]} ::
          i < |s.claims| && s.claims[i].kind == kind && OneGone(s, r, i, MotionModel.Expired)
          && forall k {:trigger s.claims[k]} :: 0 <= k < |s.claims| && s.claims[k].kind == kind ==>
               s.claims[k].arrival <= s.claims[i].arrival
      else SameClaims(s.claims, r.claims)
    case _ => SameClaims(s.claims, r.claims)
  }

  /** The slots over the default, and the claims, after an operation. */
  ghost predicate Left(s: State, op: Op, r: State)
    requires Shaped(s) && Shaped(r)
  {
    && (forall i: nat {:trigger Slot(r, i)} :: COMBAT <= i < LAYERS && i != CONTROL ==>
         if WhyEnds(s, op, i).Some? then Slot(r, i).None? else Same(Slot(s, i), Slot(r, i)))
    && s.log <= r.log
    && (forall i: nat {:trigger Slot(s, i)} ::
         COMBAT <= i < LAYERS && i != CONTROL && Slot(s, i).Some? && WhyEnds(s, op, i).Some? ==>
           Says(s.log, r.log, Slot(s, i).value, WhyEnds(s, op, i).value))
    && ClaimsLeft(s, op, r)
  }

  /** From t to u the slots of gone are emptied for this reason; the defaults and the claims may change besides. */
  ghost predicate OverEmptied(t: State, u: State, gone: set<nat>, reason: FinishReason)
    requires Shaped(t) && Shaped(u)
  {
    && (forall k: nat {:trigger Slot(u, k)} {:trigger Slot(t, k)} :: COMBAT <= k < LAYERS && k != CONTROL ==>
         Slot(u, k) == if k in gone then None else Slot(t, k))
    && t.log <= u.log
    && forall k: nat {:trigger Slot(t, k)} :: COMBAT <= k < LAYERS && k != CONTROL && k in gone && Slot(t, k).Some? ==>
         Says(t.log, u.log, Slot(t, k).value, reason)
  }

  lemma OverFrom(t: State, u: State, gone: set<nat>, reason: FinishReason)
    requires Shaped(t) && Shaped(u) && Emptied(t, u, gone, reason)
    ensures OverEmptied(t, u, gone, reason) && u.claims == t.claims && u.fallback == t.fallback
  {
    hide Says, Slot;
  }

  lemma OverOn(t: State, u: State, v: State, a: set<nat>, b: set<nat>, reason: FinishReason)
    requires Shaped(t) && Shaped(u) && Shaped(v) && OverEmptied(t, u, a, reason) && OverEmptied(u, v, b, reason)
    ensures OverEmptied(t, v, a + b, reason) && t.log <= u.log <= v.log
  {
    hide Says, Slot;
    forall k: nat {:trigger Slot(t, k)} |
      COMBAT <= k < LAYERS && k != CONTROL && k in a + b && Slot(t, k).Some?
      ensures Says(t.log, v.log, Slot(t, k).value, reason)
    {
      SaysOn(t.log, u.log, v.log, Slot(t, k).value, reason);
      assert k !in a ==> Slot(u, k) == Slot(t, k);
    }
  }

  lemma DefaultsOver(t: State, reason: FinishReason, same: FinishReason)
    requires Shaped(t)
    ensures OverEmptied(t, FinishDefault(t, reason), {}, same) && FinishDefault(t, reason).claims == t.claims
    ensures OverEmptied(t, FinishFallback(t, reason), {}, same) && FinishFallback(t, reason).claims == t.claims
    ensures OverEmptied(t, PopDefault(t, reason), {}, same) && PopDefault(t, reason).claims == t.claims
  {
  }

  /** The operation went by way of t. */
  lemma LeftFrom(s: State, op: Op, t: State, b: Option<Held>, gone: set<nat>, reason: FinishReason)
    requires Shaped(s) && Shaped(t) && OverEmptied(s, t, gone, reason) && ClaimsLeft(s, op, t)
    requires forall i: nat {:trigger WhyEnds(s, op, i)} :: COMBAT <= i < LAYERS && i != CONTROL ==>
      WhyEnds(s, op, i) == if i in gone then Some(reason) else None
    ensures Left(s, op, Reselected(t, b))
  {
    hide *;
    ReselectedSame(t, b);
    var r := Reselected(t, b);
    LeftBehind(s, op, t, r, gone, reason);
  }

  lemma LeftBehind(s: State, op: Op, t: State, r: State, gone: set<nat>, reason: FinishReason)
    requires Shaped(s) && Shaped(t) && OverEmptied(s, t, gone, reason) && ClaimsLeft(s, op, t)
    requires forall i: nat {:trigger WhyEnds(s, op, i)} :: COMBAT <= i < LAYERS && i != CONTROL ==>
      WhyEnds(s, op, i) == if i in gone then Some(reason) else None
    requires Shaped(r) && (forall i: nat {:trigger Slot(r, i)} :: i < LAYERS ==> Same(Slot(t, i), Slot(r, i)))
    requires SameClaims(t.claims, r.claims) && t.log <= r.log
    ensures Left(s, op, r)
  {
    ClaimsOn(s, op, t, r);
    hide Says, Slot, ClaimsLeft, WhyEnds, SameClaims;
    forall i: nat {:trigger Slot(s, i)} |
      COMBAT <= i < LAYERS && i != CONTROL && Slot(s, i).Some? && WhyEnds(s, op, i).Some?
      ensures Says(s.log, r.log, Slot(s, i).value, WhyEnds(s, op, i).value)
    {
      SaysOn(s.log, t.log, r.log, Slot(s, i).value, reason);
    }
  }

  lemma KindSaidOn(s: State, t: State, r: State, kind: Option<Kind>, reason: FinishReason)
    requires KindSaid(s, t, kind, reason) && s.log <= t.log <= r.log
    ensures KindSaid(s, r, kind, reason)
  {
    hide Says;
    forall c {:trigger c in s.claims} | c in s.claims && (kind.None? || c.kind == kind.value)
      ensures Says(s.log, r.log, c, reason)
    {
      SaysOn(s.log, t.log, r.log, c, reason);
    }
  }

  lemma OneGoneOn(s: State, t: State, r: State, i: nat, reason: FinishReason)
    requires s.log <= t.log <= r.log && SameClaims(t.claims, r.claims) && OneGone(s, t, i, reason)
    ensures OneGone(s, r, i, reason)
  {
    hide Says;
    SameOn(s.claims[..i] + s.claims[i + 1..], t.claims, r.claims);
    SaysOn(s.log, t.log, r.log, s.claims[i], reason);
  }

  lemma ClaimsOn(s: State, op: Op, t: State, r: State)
    requires Shaped(s) && s.log <= t.log <= r.log && SameClaims(t.claims, r.claims) && ClaimsLeft(s, op, t)
    ensures ClaimsLeft(s, op, r)
  {
    hide SameClaims, OneGone, KindSaid, OnTop, Ruling;
    if SameClaims(s.claims, t.claims) { SameOn(s.claims, t.claims, r.claims); }
    NoneSame(t.claims, r.claims);
    match op {
      case DoClear(all) => if all { KindSaidOn(s, t, r, None, Cleared); }
      case DoDie => KindSaidOn(s, t, r, None, Died);
      case DoCancelControl(kind) =>
        SameOn(OtherKinds(s.claims, kind), t.claims, r.claims);
        KindSaidOn(s, t, r, Some(kind), Cancelled);
      case DoRelease(claim) =>
        forall i: nat | OneGone(s, t, i, Cancelled) ensures OneGone(s, r, i, Cancelled) {
          OneGoneOn(s, t, r, i, Cancelled);
        }
      case DoFinishSelected(reason) =>
        forall i: nat | OneGone(s, t, i, reason) ensures OneGone(s, r, i, reason) { OneGoneOn(s, t, r, i, reason); }
      case DoExpire(_) =>
        forall i: nat | OneGone(s, t, i, MotionModel.Expired) ensures OneGone(s, r, i, MotionModel.Expired) {
          OneGoneOn(s, t, r, i, MotionModel.Expired);
        }
      case _ =>
    }
  }

  lemma NoneSame(a: seq<Held>, b: seq<Held>)
    ensures SameClaims(a, b) && a == [] ==> b == []
  {
  }

  lemma {:induction false} OtherKindsOf(a: seq<Held>, b: seq<Held>, kind: Kind)
    ensures OtherKinds(a + b, kind) == OtherKinds(a, kind) + OtherKinds(b, kind)
    decreases |b|
  {
    if b == [] {
      assert a + b == a;
    } else {
      var less := b[..|b| - 1];
      assert (a + b)[..|a + b| - 1] == a + less && (a + b)[|a + b| - 1] == b[|b| - 1];
      OtherKindsOf(a, less, kind);
    }
  }

  lemma OneOfKind(claims: seq<Held>, i: nat, kind: Kind)
    requires i < |claims| && claims[i].kind == kind
    ensures OtherKinds(claims[..i] + claims[i + 1..], kind) == OtherKinds(claims, kind)
  {
    OtherKindsOf(claims[..i], claims[i + 1..], kind);
    assert claims == claims[..i] + [claims[i]] + claims[i + 1..];
    OtherKindsOf(claims[..i] + [claims[i]], claims[i + 1..], kind);
    OtherKindsOf(claims[..i], [claims[i]], kind);
    assert OtherKinds([claims[i]], kind) == [];
  }

  lemma {:induction false} NoneOfKind(claims: seq<Held>, kind: Kind)
    requires forall i {:trigger claims[i]} :: 0 <= i < |claims| ==> claims[i].kind != kind
    ensures OtherKinds(claims, kind) == claims
  {
    if claims != [] { NoneOfKind(claims[..|claims| - 1], kind); }
  }

  /** The claims of a kind go, and nothing else. */
  lemma {:induction false} ClaimsEmptied(s: State, kind: Option<Kind>, reason: FinishReason)
    requires Shaped(s)
    ensures var t := FinishClaims(s, kind, reason);
      && Shaped(t) && t == s.(claims := t.claims, log := t.log) && s.log <= t.log && KindSaid(s, t, kind, reason)
      && t.claims == if kind.None? then [] else OtherKinds(s.claims, kind.value)
    decreases |s.claims|
  {
    hide OtherKinds, BestOfKind, KindSaid, FinishClaim;
    var b := BestOfKind(s.claims, kind, |s.claims|);
    var t := FinishClaims(s, kind, reason);
    if b.None? {
      NoneFinished(s, kind, reason);
    } else {
      var i := b.value;
      var u := FinishClaim(s, i, reason);
      FinishClaimIs(s, i, reason);
      ClaimsEmptied(u, kind, reason);
      if kind.Some? { OneOfKind(s.claims, i, kind.value); }
      OneThenKind(s, u, t, i, kind, reason);
    }
  }

  lemma NoneFinished(s: State, kind: Option<Kind>, reason: FinishReason)
    requires BestOfKind(s.claims, kind, |s.claims|).None?
    ensures KindSaid(s, s, kind, reason)
    ensures s.claims == if kind.None? then [] else OtherKinds(s.claims, kind.value)
  {
    if kind.Some? { NoneOfKind(s.claims, kind.value); }
    hide BestOfKind;
  }

  lemma FinishClaimIs(s: State, i: nat, reason: FinishReason)
    requires i < |s.claims|
    ensures var u := FinishClaim(s, i, reason);
      && u.claims == s.claims[..i] + s.claims[i + 1..] && u.log == s.log + [About(s.claims[i], Finished, reason)]
      && u == s.(claims := u.claims, log := u.log) && Says(s.log, u.log, s.claims[i], reason)
  {
    assert FinishClaim(s, i, reason).log[|s.log|] == About(s.claims[i], Finished, reason);
  }

  lemma OneThenKind(s: State, u: State, t: State, i: nat, kind: Option<Kind>, reason: FinishReason)
    requires i < |s.claims| && u.claims == s.claims[..i] + s.claims[i + 1..] && Says(s.log, u.log, s.claims[i], reason)
    requires s.log <= u.log <= t.log && KindSaid(u, t, kind, reason)
    ensures KindSaid(s, t, kind, reason)
  {
    hide Says;
    forall c {:trigger c in s.claims} | c in s.claims && (kind.None? || c.kind == kind.value)
      ensures Says(s.log, t.log, c, reason)
    {
      SaysOn(s.log, u.log, t.log, c, reason);
      if c != s.claims[i] {
        var k :| 0 <= k < |s.claims| && s.claims[k] == c;
        assert c == u.claims[if k < i then k else k - 1];
        assert c in u.claims;
      }
    }
  }

  lemma ClaimGone(s: State, i: nat, reason: FinishReason)
    requires Shaped(s) && i < |s.claims|
    ensures var t := FinishClaim(s, i, reason);
      Shaped(t) && OneGone(s, t, i, reason) && OverEmptied(s, t, {}, reason)
  {
    var t := FinishClaim(s, i, reason);
    assert t.log[|s.log|] == About(s.claims[i], Finished, reason);
    forall k: nat {:trigger Slot(t, k)} | k < LAYERS ensures Slot(t, k) == Slot(s, k) { }
  }

  lemma SameItself(claims: seq<Held>)
    ensures SameClaims(claims, claims)
  {
  }

  lemma ClaimsOver(s: State, t: State, reason: FinishReason)
    requires Shaped(s) && Shaped(t) && t == s.(claims := t.claims, log := t.log) && s.log <= t.log
    ensures OverEmptied(s, t, {}, reason)
  {
    forall k: nat {:trigger Slot(t, k)} | k < LAYERS ensures Slot(t, k) == Slot(s, k) { }
  }

  lemma ClearLeft(s: State, op: Op)
    requires Shaped(s) && op.DoClear?
    ensures Left(s, op, Step(s, op))
  {
    hide Emptied, OverEmptied, Left, ClaimsLeft, WhyEnds, Between, KindSaid, SameClaims, Reselected, Selected, Step,
      FinishCommands, FinishCombat, FinishClaims, FinishDefault, FinishFallback, PopDefault, ClearOp, Slot;
    StepIs(s, op);
    BetweenAre();
    var a := FinishCommands(s, SCRIPTED, Cleared);
    CommandsEmptied(s, SCRIPTED, Cleared);
    OverFrom(s, a, Between(SCRIPTED, LAYERS), Cleared);
    var t := FinishCombat(a, Cleared);
    CombatEmptied(a, Cleared);
    OverFrom(a, t, {COMBAT}, Cleared);
    var gone := Between(SCRIPTED, LAYERS) + {COMBAT};
    OverOn(s, a, t, Between(SCRIPTED, LAYERS), {COMBAT}, Cleared);
    AllEnd(s, op, gone, Cleared);
    Unions(gone);
    if op.all {
      var c := FinishClaims(t, None, Cleared);
      ClaimsEmptied(t, None, Cleared);
      ClaimsOver(t, c, Cleared);
      OverOn(s, t, c, gone, {}, Cleared);
      var d := FinishDefault(c, Cleared);
      DefaultsOver(c, Cleared, Cleared);
      OverOn(s, c, d, gone, {}, Cleared);
      var e := FinishFallback(d, Cleared);
      DefaultsOver(d, Cleared, Cleared);
      OverOn(s, d, e, gone, {}, Cleared);
      AllClaims(s, op, t, c, e, Cleared);
      ClearAllIs(s);
      LeftFrom(s, op, e, Selected(s), gone, Cleared);
    } else {
      var u := if t.fallback.Some? then PopDefault(t, Cleared) else t;
      DefaultsOver(t, Cleared, Cleared);
      if t.fallback.Some? { OverOn(s, t, u, gone, {}, Cleared); }
      SameItself(s.claims);
      PartIs(s, op, u);
      LeftFrom(s, op, u, Selected(s), gone, Cleared);
    }
  }

  lemma Unions(gone: set<nat>)
    ensures gone + {} == gone
  {
  }

  lemma ClearAllIs(s: State)
    requires Shaped(s)
    ensures var t := FinishCombat(FinishCommands(s, SCRIPTED, Cleared), Cleared);
      ClearOp(s, true) ==
      Reselected(FinishFallback(FinishDefault(FinishClaims(t, None, Cleared), Cleared), Cleared), Selected(s))
  {
    hide FinishCombat, FinishCommands, FinishClaims, FinishDefault, FinishFallback, Reselected, Selected;
  }

  lemma PartIs(s: State, op: Op, u: State)
    requires Shaped(s) && op == DoClear(false)
    requires var t := FinishCombat(FinishCommands(s, SCRIPTED, Cleared), Cleared);
      u == if t.fallback.Some? then PopDefault(t, Cleared) else t
    requires SameClaims(s.claims, s.claims) && u.claims == s.claims
    ensures ClearOp(s, false) == Reselected(u, Selected(s)) && ClaimsLeft(s, op, u)
  {
    hide FinishCombat, FinishCommands, PopDefault, Reselected, Selected, SameClaims;
  }

  lemma AllEnd(s: State, op: Op, gone: set<nat>, reason: FinishReason)
    requires Shaped(s) && ((op.DoClear? && reason == Cleared) || (op.DoDie? && reason == Died))
    requires gone == {SCRIPTED, DISTRACT, FORCED, TAXI} + {COMBAT}
    ensures forall i: nat {:trigger WhyEnds(s, op, i)} :: COMBAT <= i < LAYERS && i != CONTROL ==>
      WhyEnds(s, op, i) == if i in gone then Some(reason) else None
  {
  }

  lemma AllClaims(s: State, op: Op, t: State, c: State, e: State, reason: FinishReason)
    requires Shaped(s) && ((op == DoClear(true) && reason == Cleared) || (op.DoDie? && reason == Died))
    requires s.log <= t.log <= c.log <= e.log && t.claims == s.claims && KindSaid(t, c, None, reason)
    requires e.claims == []
    ensures ClaimsLeft(s, op, e)
  {
    hide Says;
    forall x {:trigger x in s.claims} | x in s.claims ensures Says(s.log, e.log, x, reason) {
      assert x in t.claims;
      SaysOn(s.log, t.log, c.log, x, reason);
      SaysOn(s.log, c.log, e.log, x, reason);
      SaysOn(s.log, t.log, e.log, x, reason);
    }
  }

  lemma DieLeft(s: State)
    requires Shaped(s)
    ensures Left(s, DoDie, Die(s))
  {
    hide Emptied, OverEmptied, Left, ClaimsLeft, WhyEnds, KindSaid, SameClaims, FinishCommand, FinishCombat,
      FinishClaims,
      FinishDefault, FinishFallback, Slot;
    var a := FinishDefault(s, Died);
    DefaultsOver(s, Died, Died);
    var b := FinishFallback(a, Died);
    DefaultsOver(a, Died, Died);
    OverOn(s, a, b, {}, {}, Died);
    var c := FinishCombat(b, Died);
    CombatEmptied(b, Died);
    OverFrom(b, c, {COMBAT}, Died);
    OverOn(s, b, c, {} + {}, {COMBAT}, Died);
    var d := FinishCommand(c, 2, Died);
    CommandEmptied(c, 2, Died);
    OverFrom(c, d, {2}, Died);
    OverOn(s, c, d, {} + {} + {COMBAT}, {2}, Died);
    var e := FinishCommand(d, 3, Died);
    CommandEmptied(d, 3, Died);
    OverFrom(d, e, {3}, Died);
    OverOn(s, d, e, {} + {} + {COMBAT} + {2}, {3}, Died);
    assert {} + {} + {COMBAT} + {2} + {3} == {1, 2, 3};
    ClaimsEmptied(e, None, Died);
    var f := FinishClaims(e, None, Died);
    ClaimsOver(e, f, Died);
    OverOn(s, e, f, {1, 2, 3}, {}, Died);
    var g := FinishCommand(f, 5, Died);
    CommandEmptied(f, 5, Died);
    OverFrom(f, g, {5}, Died);
    OverOn(s, f, g, {1, 2, 3} + {}, {5}, Died);
    var h := FinishCommand(g, 6, Died);
    CommandEmptied(g, 6, Died);
    OverFrom(g, h, {6}, Died);
    OverOn(s, g, h, {1, 2, 3} + {} + {5}, {6}, Died);
    assert {1, 2, 3} + {} + {5} + {6} == {SCRIPTED, DISTRACT, FORCED, TAXI} + {COMBAT};
    AllClaims(s, DoDie, e, f, h, Died);
    AllEnd(s, DoDie, {SCRIPTED, DISTRACT, FORCED, TAXI} + {COMBAT}, Died);
    var r := Die(s);
    assert r == h.(mobility := r.mobility, blocked := 0);
    SlotsOnly(h, r);
    LeftBehind(s, DoDie, h, r, {SCRIPTED, DISTRACT, FORCED, TAXI} + {COMBAT}, Died);
  }

  lemma SlotsOnly(h: State, r: State)
    requires Shaped(h) && r == h.(mobility := r.mobility, blocked := r.blocked)
    ensures Shaped(r) && (forall i: nat {:trigger Slot(r, i)} :: i < LAYERS ==> Same(Slot(h, i), Slot(r, i)))
    ensures SameClaims(h.claims, r.claims) && r.log == h.log
  {
    forall i: nat {:trigger Slot(r, i)} | i < LAYERS ensures Slot(r, i) == Slot(h, i) { }
  }

  /** Nothing was done. */
  lemma LeftAlone(s: State, op: Op)
    requires Shaped(s) && (forall i: nat {:trigger WhyEnds(s, op, i)} ::
      COMBAT <= i < LAYERS && i != CONTROL ==> WhyEnds(s, op, i).None? || Slot(s, i).None?)
    requires ClaimsLeft(s, op, s)
    ensures Left(s, op, s)
  {
    hide WhyEnds, ClaimsLeft, Says;
  }

  lemma InhibitLeft(s: State, op: Op)
    requires Shaped(s) && (op.DoInhibit? || op.DoUninhibit?)
    ensures Left(s, op, Step(s, op))
  {
    hide *;
    InhibitOnly(s, op);
    var r := Step(s, op);
    SlotsStay(s, r);
    SameItself(s.claims);
    InhibitEndsNothing(s, op, r);
  }

  lemma InhibitOnly(s: State, op: Op)
    requires Shaped(s) && (op.DoInhibit? || op.DoUninhibit?)
    ensures var r := Step(s, op);
      r == s.(mobility := r.mobility, blocked := r.blocked, log := r.log) && s.log <= r.log
  {
    var t, form := InhibitForm(s, op);
    if form == Paused { ReconciledSettles(t); }
    hide Reconciled, PauseDue, Step, Selected, UpdatedFrom;
  }

  lemma SlotsStay(s: State, r: State)
    requires Shaped(s) && r == s.(mobility := r.mobility, blocked := r.blocked, log := r.log)
    ensures Shaped(r) && r.claims == s.claims
    ensures forall i: nat {:trigger Slot(r, i)} :: i < LAYERS ==> Same(Slot(s, i), Slot(r, i))
  {
    forall i: nat {:trigger Slot(r, i)} | i < LAYERS ensures Slot(r, i) == Slot(s, i) { }
  }

  lemma InhibitEndsNothing(s: State, op: Op, r: State)
    requires Shaped(s) && Shaped(r) && (op.DoInhibit? || op.DoUninhibit?) && s.log <= r.log
    requires SameClaims(s.claims, r.claims)
    requires forall i: nat {:trigger Slot(r, i)} :: i < LAYERS ==> Same(Slot(s, i), Slot(r, i))
    ensures Left(s, op, r)
  {
    hide Slot, SameClaims, Says;
  }

  /** The slot that stands for a layer other than the claims' is on top when the layer is selected. */
  lemma TopIs(s: State)
    requires Shaped(s)
    ensures forall i: nat {:trigger OnTop(s, i)} :: i < LAYERS ==>
      (OnTop(s, i) <==> SelectedLayer(s).Some? && Index(SelectedLayer(s).value) == i)
    ensures SelectedLayer(s) == Some(ControlLayer) ==>
      s.claims != [] && Ruling(s.claims, s.claims[BestClaim(s.claims, |s.claims|)])
  {
    SelectionLaw(s);
    hide Highest, Selected, BestClaim, Ruling;
    forall i: nat {:trigger OnTop(s, i)} | i < LAYERS
      ensures OnTop(s, i) <==> SelectedLayer(s).Some? && Index(SelectedLayer(s).value) == i
    {
      if SelectedLayer(s).Some? && Index(SelectedLayer(s).value) == i { assert Highest(s, SelectedLayer(s).value); }
    }
    if SelectedLayer(s) == Some(ControlLayer) {
      assert Highest(s, ControlLayer);
      SelectedClaim(s);
    }
  }

  lemma SelectedClaim(s: State)
    requires Shaped(s) && SelectedLayer(s) == Some(ControlLayer)
    ensures s.claims != [] && Selected(s) == Some(s.claims[BestClaim(s.claims, |s.claims|)])
  {
    hide BestClaim;
  }

  /** The operation finishes the selection for this reason. */
  predicate FinishesTop(s: State, op: Op, reason: FinishReason)
    requires Shaped(s)
  {
    && SelectedLayer(s).Some?
    && (op == DoFinishSelected(reason)
      || (op == DoExpireSelected && SelectedLayer(s).value in {CombatLayer, ScriptedLayer, DistractLayer, ForcedLayer,
            TaxiLayer} && reason == if SelectedLayer(s).value == CombatLayer then TargetLost else MotionModel.Expired))
  }

  /** Of the slots that are not the claims', it is the selected one that ends. */
  lemma TopEnds(s: State, op: Op, reason: FinishReason)
    requires Shaped(s) && FinishesTop(s, op, reason)
    ensures forall i: nat {:trigger WhyEnds(s, op, i)} :: COMBAT <= i < LAYERS && i != CONTROL ==>
      WhyEnds(s, op, i) == if i == Index(SelectedLayer(s).value) then Some(reason) else None
  {
    TopIs(s);
    hide Selected, OnTop, SelectedLayer, Ruling, BestClaim;
  }

  /** The claims stay unless the selection is one. */
  lemma TopSparesClaims(s: State, op: Op, reason: FinishReason, t: State)
    requires Shaped(s) && FinishesTop(s, op, reason) && SelectedLayer(s).value != ControlLayer && t.claims == s.claims
    ensures ClaimsLeft(s, op, t)
  {
    TopIs(s);
    SameItself(s.claims);
    hide Selected, OnTop, SelectedLayer, Ruling, BestClaim, SameClaims, Shaped;
  }

  lemma TopClaimGone(s: State, reason: FinishReason)
    requires Shaped(s) && SelectedLayer(s) == Some(ControlLayer)
    ensures Left(s, DoFinishSelected(reason), FinishSelected(s, reason))
  {
    TopIs(s);
    TopEnds(s, DoFinishSelected(reason), reason);
    var i := BestClaim(s.claims, |s.claims|);
    ClaimGone(s, i, reason);
    hide Selected, OnTop, SelectedLayer, FinishClaim, Reselected, WhyEnds, OverEmptied, SameClaims, OneGone, BestClaim,
      Ruling, Left;
    LeftFrom(s, DoFinishSelected(reason), FinishClaim(s, i, reason), Selected(s), {}, reason);
  }

  /** The slots that empty with a layer. */
  function GoneWith(layer: Layer): set<nat> {
    if layer in {DefaultLayer, ControlLayer} then {} else {Index(layer)}
  }

  lemma TopGone(s: State, op: Op, reason: FinishReason, t: State)
    requires Shaped(s) && Shaped(t) && FinishesTop(s, op, reason) && SelectedLayer(s).value != ControlLayer
    requires OverEmptied(s, t, GoneWith(SelectedLayer(s).value), reason) && t.claims == s.claims
    ensures Left(s, op, Reselected(t, Selected(s)))
  {
    TopEnds(s, op, reason);
    TopSparesClaims(s, op, reason, t);
    hide SelectedLayer, FinishesTop, WhyEnds, OverEmptied, ClaimsLeft, Left, Shaped, Selected, Reselected;
    LeftFrom(s, op, t, Selected(s), GoneWith(SelectedLayer(s).value), reason);
  }

  lemma SlotOver(s: State, i: nat, reason: FinishReason)
    requires Shaped(s) && SCRIPTED <= i < LAYERS
    ensures OverEmptied(s, FinishCommand(s, i, reason), {i}, reason) && FinishCommand(s, i, reason).claims == s.claims
  {
    CommandEmptied(s, i, reason);
    hide Shaped, Emptied, OverEmptied;
    OverFrom(s, FinishCommand(s, i, reason), {i}, reason);
  }

  lemma CombatOver(s: State, reason: FinishReason)
    requires Shaped(s)
    ensures Shaped(FinishCombat(s, reason)) && FinishCombat(s, reason).claims == s.claims
    ensures OverEmptied(s, FinishCombat(s, reason), {COMBAT}, reason)
  {
    CombatEmptied(s, reason);
    hide Emptied, OverEmptied;
    OverFrom(s, FinishCombat(s, reason), {COMBAT}, reason);
  }

  lemma DefaultOver(s: State, reason: FinishReason)
    requires Shaped(s)
    ensures Shaped(PopDefault(s, reason)) && PopDefault(s, reason).claims == s.claims
    ensures OverEmptied(s, PopDefault(s, reason), {}, reason)
  {
    DefaultsOver(s, reason, reason);
    hide OverEmptied;
  }

  /** Finishing the selection, for the operation's reason. */
  lemma SelectedLeft(s: State, op: Op, reason: FinishReason)
    requires Shaped(s) && FinishesTop(s, op, reason)
    ensures Left(s, op, FinishSelected(s, reason))
  {
    hide SelectedLayer, Selected, FinishCommand, FinishCombat, PopDefault, Reselected, OverEmptied, Emptied, Left,
      Shaped;
    match SelectedLayer(s).value {
      case DefaultLayer =>
        DefaultOver(s, reason);
        TopGone(s, op, reason, PopDefault(s, reason));
      case CombatLayer =>
        CombatOver(s, reason);
        TopGone(s, op, reason, FinishCombat(s, reason));
      case ControlLayer =>
        TopClaimGone(s, reason);
      case layer =>
        SlotOver(s, Index(layer), reason);
        TopGone(s, op, reason, FinishCommand(s, Index(layer), reason));
    }
  }

  lemma ExpireSelectedLeft(s: State)
    requires Shaped(s)
    ensures Left(s, DoExpireSelected, ExpireSelected(s))
  {
    TopIs(s);
    SameItself(s.claims);
    hide Selected, OnTop, SelectedLayer, FinishSelected, PopDefault, Reselected, Ruling, OverEmptied, SameClaims,
      BestClaim,
      Left;
    match SelectedLayer(s) {
      case None => NothingUp(s); LeftAlone(s, DoExpireSelected);
      case Some(DefaultLayer) =>
        if s.fallback.None? {
          LeftAlone(s, DoExpireSelected);
        } else {
          var reason := if s.dflt.value.kind == Follow then TargetLost else MotionModel.Expired;
          DefaultsOver(s, reason, reason);
          LeftFrom(s, DoExpireSelected, PopDefault(s, reason), Selected(s), {}, reason);
        }
      case Some(CombatLayer) => SelectedLeft(s, DoExpireSelected, TargetLost);
      case Some(ControlLayer) => LeftAlone(s, DoExpireSelected);
      case Some(_) => SelectedLeft(s, DoExpireSelected, MotionModel.Expired);
    }
  }

  lemma NothingUp(s: State)
    requires Shaped(s) && SelectedLayer(s).None?
    ensures forall i: nat {:trigger Slot(s, i)} :: i < LAYERS && i != CONTROL && SCRIPTED <= i ==> Slot(s, i).None?
    ensures s.combat.None? && s.dflt.None? && s.claims == []
  {
  }

  lemma {:induction false} NewestIs(claims: seq<Held>, kind: Kind, n: nat)
    requires n <= |claims|
    ensures var b := NewestOfKind(claims, kind, n);
      && (b.None? <==> forall i {:trigger claims[i]} :: 0 <= i < n ==> claims[i].kind != kind)
      && (b.Some? ==> forall k {:trigger claims[k]} :: 0 <= k < n && claims[k].kind == kind ==>
            claims[k].arrival <= claims[b.value].arrival)
  {
    if n > 0 { NewestIs(claims, kind, n - 1); }
  }

  lemma {:induction false} HighestIs(s: State, kind: Kind, n: nat)
    requires Shaped(s) && n <= LAYERS
    ensures var b := HighestOfKind(s.commands, kind, n);
      b.Some? ==> forall k {:trigger s.commands[k]} :: b.value < k < n && s.commands[k].Some? ==>
        s.commands[k].value.kind != kind
    decreases n
  {
    if n > SCRIPTED { HighestIs(s, kind, n - 1); }
  }

  lemma ExpireLeft(s: State, kind: Kind)
    requires Shaped(s)
    ensures Left(s, DoExpire(kind), Expire(s, kind))
  {
    SameItself(s.claims);
    if LayerOf(kind) == ControlLayer { ExpireClaim(s, kind); } else { ExpireSlot(s, kind); }
  }

  lemma ExpireClaim(s: State, kind: Kind)
    requires Shaped(s) && LayerOf(kind) == ControlLayer && SameClaims(s.claims, s.claims)
    ensures Left(s, DoExpire(kind), Expire(s, kind))
  {
    NewestIs(s.claims, kind, |s.claims|);
    hide Selected, FinishClaim, Reselected, OverEmptied, SameClaims, NewestOfKind, OneGone, Left, Slot, ClaimsLeft;
    var b := NewestOfKind(s.claims, kind, |s.claims|);
    if b.None? {
      NoClaimExpires(s, kind);
      LeftAlone(s, DoExpire(kind));
    } else {
      ClaimGone(s, b.value, MotionModel.Expired);
      ClaimExpires(s, kind, b.value, FinishClaim(s, b.value, MotionModel.Expired));
      LeftFrom(s, DoExpire(kind), FinishClaim(s, b.value, MotionModel.Expired), Selected(s), {}, MotionModel.Expired);
    }
  }

  lemma NoClaimExpires(s: State, kind: Kind)
    requires Shaped(s) && SameClaims(s.claims, s.claims)
    requires forall i {:trigger s.claims[i]} :: 0 <= i < |s.claims| ==> s.claims[i].kind != kind
    ensures ClaimsLeft(s, DoExpire(kind), s)
  {
    hide SameClaims;
  }

  lemma ClaimExpires(s: State, kind: Kind, i: nat, t: State)
    requires Shaped(s) && i < |s.claims| && LayerOf(kind) == ControlLayer && s.claims[i].kind == kind
    requires OneGone(s, t, i, MotionModel.Expired) && forall k {:trigger s.claims[k]} ::
      0 <= k < |s.claims| && s.claims[k].kind == kind ==> s.claims[k].arrival <= s.claims[i].arrival
    ensures ClaimsLeft(s, DoExpire(kind), t)
  {
    hide OneGone, SameClaims;
    assert s.claims[i].kind == kind;
  }

  /** Which slot is the one that Expire ends. */
  lemma ExpiringSlot(s: State, kind: Kind, gone: set<nat>, reason: FinishReason)
    requires Shaped(s) && LayerOf(kind) != ControlLayer
    requires var b := HighestOfKind(s.commands, kind, LAYERS);
      if b.Some? then gone == (if b.value == CONTROL then {} else {b.value}) && reason == MotionModel.Expired
      else if s.combat.Some? && s.combat.value.kind == kind then gone == {COMBAT} && reason == TargetLost
      else gone == {}
    ensures forall i: nat {:trigger WhyEnds(s, DoExpire(kind), i)} :: COMBAT <= i < LAYERS && i != CONTROL ==>
      WhyEnds(s, DoExpire(kind), i) == if i in gone then Some(reason) else None
  {
    HighestIs(s, kind, LAYERS);
    hide HighestOfKind;
  }

  lemma ExpireSlot(s: State, kind: Kind)
    requires Shaped(s) && LayerOf(kind) != ControlLayer && SameClaims(s.claims, s.claims)
    ensures Left(s, DoExpire(kind), Expire(s, kind))
  {
    var op, b, why := DoExpire(kind), HighestOfKind(s.commands, kind, LAYERS), MotionModel.Expired;
    var end := if kind == Follow then TargetLost else MotionModel.Expired;
    assert ClaimsLeft(s, op, s);
    if b.Some? {
      var t := FinishCommand(s, b.value, why);
      CommandEmptied(s, b.value, why);
      if b.value == CONTROL { ControlUnused(s, t, why); }
      var gone := if b.value == CONTROL then {} else {b.value};
      OverFrom(s, t, gone, why);
      ExpiringSlot(s, kind, gone, why);
      assert ClaimsLeft(s, op, t);
      hide Selected, FinishCommand, Reselected, OverEmptied, Emptied, Left, Slot, WhyEnds, ClaimsLeft;
      LeftFrom(s, op, t, Selected(s), gone, why);
    } else if s.combat.Some? && s.combat.value.kind == kind {
      var t := FinishCombat(s, TargetLost);
      CombatEmptied(s, TargetLost);
      OverFrom(s, t, {COMBAT}, TargetLost);
      ExpiringSlot(s, kind, {COMBAT}, TargetLost);
      assert ClaimsLeft(s, op, t);
      hide Selected, FinishCombat, Reselected, OverEmptied, Emptied, Left, Slot, WhyEnds, ClaimsLeft;
      LeftFrom(s, op, t, Selected(s), {COMBAT}, TargetLost);
    } else {
      ExpiringSlot(s, kind, {}, why);
      ExpiringSlot(s, kind, {}, end);
      DefaultsOver(s, end, end);
      var t := PopDefault(s, end);
      assert ClaimsLeft(s, op, t);
      hide Selected, PopDefault, Reselected, OverEmptied, Left, Slot, WhyEnds, ClaimsLeft;
      if s.dflt.Some? && s.dflt.value.kind == kind && s.fallback.Some? {
        LeftFrom(s, op, t, Selected(s), {}, end);
      } else {
        LeftAlone(s, op);
      }
    }
  }

  lemma CancelLeft(s: State, kind: Kind)
    requires Shaped(s)
    ensures Left(s, DoCancelControl(kind), CancelControl(s, kind))
  {
    ClaimsEmptied(s, Some(kind), Cancelled);
    var t := FinishClaims(s, Some(kind), Cancelled);
    ClaimsOver(s, t, Cancelled);
    SameItself(t.claims);
    hide Selected, FinishClaims, Reselected, OverEmptied, SameClaims, Left, OtherKinds, Slot;
    LeftFrom(s, DoCancelControl(kind), t, Selected(s), {}, Cancelled);
  }

  lemma NotifyIs(s: State)
    requires Shaped(s)
    ensures Step(s, DoNotifyCombat) == NotifyCombat(s)
  {
    hide NotifyCombat;
  }

  lemma NotifyLeft(s: State)
    requires Shaped(s)
    ensures Left(s, DoNotifyCombat, NotifyCombat(s))
  {
    SameItself(s.claims);
    var t := FinishCommand(s, DISTRACT, Cancelled);
    CommandEmptied(s, DISTRACT, Cancelled);
    OverFrom(s, t, {DISTRACT}, Cancelled);
    hide Selected, FinishCommand, Reselected, OverEmptied, Emptied, SameClaims, Left, Slot;
    LeftFrom(s, DoNotifyCombat, t, Selected(s), {DISTRACT}, Cancelled);
  }

  lemma ReleaseLeft(s: State, claim: nat)
    requires Shaped(s)
    ensures Left(s, DoRelease(claim), Release(s, claim))
  {
    SameItself(s.claims);
    ClaimFound(s.claims, claim);
    hide Selected, FinishClaim, Reselected, OverEmptied, SameClaims, OneGone, Left, Slot;
    var i := ClaimIndex(s.claims, claim);
    if i < |s.claims| {
      ClaimGone(s, i, Cancelled);
      assert s.claims[i].claim == claim;
      LeftFrom(s, DoRelease(claim), FinishClaim(s, i, Cancelled), Selected(s), {}, Cancelled);
    } else {
      LeftAlone(s, DoRelease(claim));
    }
  }

  /**
   Which slots and claims an operation ends, which it leaves, and why, for every operation but the two that fill
   slots.
   */
  lemma StepSlots(s: State, op: Op)
    requires Shaped(s) && !op.DoInstallDefault? && !op.DoRequest?
    ensures Left(s, op, Step(s, op))
  {
    hide Left, ClearOp, ExpireSelected, Expire, FinishSelected, Die, Step, CancelControl, Release, NotifyCombat,
      Reselected,
      FinishCommand;
    StepIs(s, op);
    match op
    case DoClear(_) => ClearLeft(s, op);
    case DoExpireSelected => ExpireSelectedLeft(s);
    case DoExpire(kind) => ExpireLeft(s, kind);
    case DoFinishSelected(reason) =>
      if SelectedLayer(s).Some? { SelectedLeft(s, op, reason); } else { NothingFinished(s, reason); }
    case DoCancelControl(kind) => CancelLeft(s, kind);
    case DoRelease(claim) => ReleaseLeft(s, claim);
    case DoNotifyCombat =>
      NotifyLeft(s);
      NotifyIs(s);
    case DoDie => DieLeft(s);
    case DoInhibit(_, _) => InhibitLeft(s, op);
    case DoUninhibit(_, _) => InhibitLeft(s, op);
  }

  lemma NothingFinished(s: State, reason: FinishReason)
    requires Shaped(s) && SelectedLayer(s).None?
    ensures Left(s, DoFinishSelected(reason), FinishSelected(s, reason))
  {
    TopIs(s);
    SameItself(s.claims);
    hide OnTop, SelectedLayer, SameClaims, Left, Slot;
    LeftAlone(s, DoFinishSelected(reason));
  }

  /** An installed default takes the place of both, and nothing else changes. */
  lemma InstallSlots(s: State, kind: Kind)
    requires Shaped(s)
    ensures var r := InstallDefault(s, kind);
      && Same(Some(Held(kind, 0, s.last + 1, 0, false)), r.dflt) && r.fallback.None? && r.last == s.last + 1
      && (forall i: nat {:trigger Slot(r, i)} :: COMBAT <= i < LAYERS ==> Same(Slot(s, i), Slot(r, i)))
      && SameClaims(s.claims, r.claims)
  {
    var t := InstallIs(s, kind);
    ReselectedSame(t, Selected(s));
    hide InstallDefault, Reselected, Selected, Stamped, Swapped;
    var r := InstallDefault(s, kind);
    assert Slot(r, DEFAULT) == r.dflt && Slot(t, DEFAULT) == t.dflt;
    hide Slot;
  }

  lemma InstallIs(s: State, kind: Kind) returns (t: State)
    requires Shaped(s)
    ensures Shaped(t) && InstallDefault(s, kind) == Reselected(t, Selected(s))
    ensures t.dflt == Some(Held(kind, 0, s.last + 1, 0, false)) && t.fallback.None? && t.last == s.last + 1
    ensures t.claims == s.claims
    ensures forall i: nat {:trigger Slot(t, i)} :: COMBAT <= i < LAYERS ==> Slot(t, i) == Slot(s, i)
  {
    hide Reselected, Selected;
    t := Swapped(s).(dflt := Some(Stamped(s, kind, 0, 0)), fallback := None, last := s.last + 1);
  }
}
