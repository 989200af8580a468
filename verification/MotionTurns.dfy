/**
 What one operation of the movement arbiter does to the numbers it holds: which entries leave and with what
 event, which entry comes in, and what becomes of the two defaults (src/motion/Arbiter.cpp).
 */
module MotionTurns {
  import opened MotionModel
  import opened MotionLedger
  import opened MotionRuns

  function Number(slot: Option<Held>): Option<nat> {
    if slot.Some? then Some(slot.value.arrival) else None
  }

  /** Some entry over the defaults has number k. */
  ghost predicate Above(s: State, k: nat) {
    || Number(s.combat) == Some(k)
    || (exists i :: 0 <= i < |s.commands| && Number(s.commands[i]) == Some(k))
    || (exists i :: 0 <= i < |s.claims| && s.claims[i].arrival == k)
  }

  /** Some entry has number k, the parked default included. */
  ghost predicate Holds(s: State, k: nat) {
    Number(s.dflt) == Some(k) || Number(s.fallback) == Some(k) || Above(s, k)
  }

  /** The events past those of s say this of entry k. */
  ghost predicate Logs(s: State, t: State, what: EventKind, k: nat) {
    exists i :: |s.log| <= i < |t.log| && t.log[i].what == what && t.log[i].arrival == k
  }

  // ----- the guards -----------------------------------------------------------------------------------------

  /** What an operation does to the default and the parked default. */
  datatype Move = Stay | Pop | EndBoth | Push | Replace

  /** The guards of the branches that touch the defaults, each of which a caller can evaluate before the call. */
  function MoveOf(s: State, op: Op): Move
    requires Shaped(s)
  {
    match op
    case DoInstallDefault(_) => Replace
    case DoRequest(request, discarding) => if Pushes(s, request, discarding) then Push else Stay
    case DoClear(all) => if all then EndBoth else if s.fallback.Some? then Pop else Stay
    case DoExpireSelected => if SelectedLayer(s) == Some(DefaultLayer) && s.fallback.Some? then Pop else Stay
    case DoExpire(kind) => if ExpiresDefault(s, kind) then Pop else Stay
    case DoFinishSelected(_) => if SelectedLayer(s) == Some(DefaultLayer) then Pop else Stay
    case DoDie => EndBoth
    case _ => Stay
  }

  /** The request becomes the default: it is not refused, and not an Idle over something selected. */
  predicate Pushes(s: State, request: MoveRequest, discarding: bool)
    requires Shaped(s)
  {
    && !Refused(s, request, discarding) && LayerOf(request.kind) == DefaultLayer
    && (request.kind == Idle ==> Selected(SelfExpired(s, DefaultLayer)).None?)
  }

  /** Nothing over the defaults is of this kind, the default is, and there is one to fall back to. */
  predicate ExpiresDefault(s: State, kind: Kind)
    requires Shaped(s)
  {
    && LayerOf(kind) != ControlLayer && HighestOfKind(s.commands, kind, LAYERS).None?
    && !(s.combat.Some? && s.combat.value.kind == kind)
    && s.dflt.Some? && s.dflt.value.kind == kind && s.fallback.Some?
  }

  // ----- one turn -------------------------------------------------------------------------------------------

  predicate EndsDefault(move: Move) { move == Pop || move == EndBoth }

  predicate SwapsDefault(move: Move) { move == Push || move == Replace }

  ghost predicate SlotsMoved(s: State, t: State, move: Move) {
    match move
    case Stay => Number(t.dflt) == Number(s.dflt) && Number(t.fallback) == Number(s.fallback)
    case Pop => Number(t.dflt) == Number(s.fallback) && t.fallback.None?
    case EndBoth => t.dflt.None? && t.fallback.None?
    case Push => Number(t.dflt) == Some(t.last) && Number(t.fallback)
      == Number(if s.dflt.Some? && s.fallback.None? then s.dflt else s.fallback)
    case Replace => Number(t.dflt) == Some(t.last) && t.fallback.None?
  }

  /** An ending event is for an entry that was held, and of the kind the branch logs. */
  ghost predicate EventFits(s: State, move: Move, e: Event) {
    match e.what
    case Finished =>
      || Above(s, e.arrival)
      || (Number(s.dflt) == Some(e.arrival) && EndsDefault(move))
      || (Number(s.fallback) == Some(e.arrival) && move == EndBoth)
    case DefaultSwapped => Number(s.dflt) == Some(e.arrival) && SwapsDefault(move)
    case _ => true
  }

  ghost predicate EventsFit(s: State, t: State, move: Move) {
    && s.log <= t.log
    && (forall i {:trigger t.log[i]} :: |s.log| <= i < |t.log| ==> EventFits(s, move, t.log[i]))
    && (forall i, j {:trigger t.log[i], t.log[j]} :: |s.log| <= i < j < |t.log| ==>
         !(t.log[i].what == DefaultSwapped && t.log[j].what == DefaultSwapped))
  }

  /** The events the branch owes the defaults are there. */
  ghost predicate EventsFull(s: State, t: State, move: Move) {
    && (s.dflt.Some? && EndsDefault(move) ==> Logs(s, t, Finished, s.dflt.value.arrival))
    && (s.fallback.Some? && move == EndBoth ==> Logs(s, t, Finished, s.fallback.value.arrival))
    && (s.dflt.Some? && SwapsDefault(move) ==> Logs(s, t, DefaultSwapped, s.dflt.value.arrival))
  }

  /** Over the defaults entries only leave, each with its event. */
  ghost predicate Thinned(s: State, t: State) {
    && (forall k: nat {:trigger Above(t, k)} :: Above(t, k) ==> Above(s, k))
    && (forall k: nat {:trigger Above(s, k)} :: Above(s, k) ==> Above(t, k) || Logs(s, t, Finished, k))
  }

  ghost predicate Worked(s: State, t: State, move: Move) {
    SlotsMoved(s, t, move) && Thinned(s, t) && EventsFit(s, t, move) && EventsFull(s, t, move)
  }

  /** Like Thinned, but the newest number may come in, and entry `from` may go on under it. */
  ghost predicate Renewed(s: State, t: State, from: Option<nat>) {
    && (forall k: nat {:trigger Above(t, k)} :: Above(t, k) ==> Above(s, k) || k == t.last == s.last + 1)
    && (forall k: nat {:trigger Above(s, k)} :: Above(s, k) ==>
         Above(t, k) || Logs(s, t, Finished, k) || (from == Some(k) && t.last == s.last + 1 && Above(t, t.last)))
  }

  ghost predicate Turned(s: State, t: State, move: Move, from: Option<nat>) {
    && s.last <= t.last <= s.last + 1 && (SwapsDefault(move) ==> t.last == s.last + 1)
    && SlotsMoved(s, t, move) && Renewed(s, t, from) && EventsFit(s, t, move) && EventsFull(s, t, move)
  }

  // ----- putting pieces together -------------------------------------------------------------------------------

  lemma LogsLonger(s: State, t: State, u: State, what: EventKind, k: nat)
    requires s.log <= t.log <= u.log
    ensures Logs(s, t, what, k) ==> Logs(s, u, what, k)
    ensures Logs(t, u, what, k) ==> Logs(s, u, what, k)
  {
    if Logs(s, t, what, k) {
      var i :| |s.log| <= i < |t.log| && t.log[i].what == what && t.log[i].arrival == k;
      assert u.log[i] == t.log[i];
    }
    if Logs(t, u, what, k) {
      var i :| |t.log| <= i < |u.log| && u.log[i].what == what && u.log[i].arrival == k;
      assert |s.log| <= i;
    }
  }

  lemma ThinnedOn(s: State, t: State, u: State)
    requires Thinned(s, t) && Thinned(t, u) && s.log <= t.log <= u.log
    ensures Thinned(s, u)
  {
    hide Above, Logs;
    forall k: nat {:trigger Above(u, k)} | Above(u, k) ensures Above(s, k) { assert Above(t, k); }
    forall k: nat {:trigger Above(s, k)} | Above(s, k) ensures Above(u, k) || Logs(s, u, Finished, k) {
      LogsLonger(s, t, u, Finished, k);
    }
  }

  lemma FitsAfter(s: State, t: State, move: Move, e: Event)
    requires Thinned(s, t)
    ensures EventFits(t, Stay, e) ==> EventFits(s, move, e)
    ensures SlotsMoved(s, t, Stay) && EventFits(t, move, e) ==> EventFits(s, move, e)
  {
    hide Above, Logs;
    assert Above(t, e.arrival) ==> Above(s, e.arrival);
  }

  lemma EventsFitOn(s: State, t: State, u: State, first: Move, then_: Move)
    requires EventsFit(s, t, first) && EventsFit(t, u, then_) && Thinned(s, t)
    requires (first == Stay && SlotsMoved(s, t, Stay)) || then_ == Stay
    ensures EventsFit(s, u, if first == Stay then then_ else first)
  {
    var move := if first == Stay then then_ else first;
    hide Thinned, SlotsMoved, Above;
    forall i {:trigger u.log[i]} | |s.log| <= i < |u.log|
      ensures EventFits(s, move, u.log[i])
      ensures i < |t.log| ==> u.log[i] == t.log[i] && EventFits(s, first, u.log[i])
      ensures i >= |t.log| ==> EventFits(t, then_, u.log[i])
    {
      if i < |t.log| {
        assert u.log[i] == t.log[i];
        if first == Stay { StayFits(s, move, t.log[i]); }
      } else {
        FitsAfter(s, t, move, u.log[i]);
      }
    }
    forall i, j {:trigger u.log[i], u.log[j]} | |s.log| <= i < j < |u.log|
      ensures !(u.log[i].what == DefaultSwapped && u.log[j].what == DefaultSwapped)
    {
      if i < |t.log| <= j { assert EventFits(s, first, u.log[i]) && EventFits(t, then_, u.log[j]); }
    }
  }

  lemma StayFits(s: State, move: Move, e: Event)
    requires EventFits(s, Stay, e)
    ensures EventFits(s, move, e)
  {
    hide Above;
  }

  lemma EventsFullOn(s: State, t: State, u: State, first: Move, then_: Move)
    requires EventsFull(s, t, first) && EventsFull(t, u, then_) && s.log <= t.log <= u.log
    requires (first == Stay && SlotsMoved(s, t, Stay)) || then_ == Stay
    ensures EventsFull(s, u, if first == Stay then then_ else first)
  {
    hide Logs;
    if s.dflt.Some? {
      LogsLonger(s, t, u, Finished, s.dflt.value.arrival);
      LogsLonger(s, t, u, DefaultSwapped, s.dflt.value.arrival);
    }
    if s.fallback.Some? { LogsLonger(s, t, u, Finished, s.fallback.value.arrival); }
  }

  lemma SlotsMovedOn(s: State, t: State, u: State, first: Move, then_: Move)
    requires SlotsMoved(s, t, first) && SlotsMoved(t, u, then_)
    requires first == Stay || (then_ == Stay && u.last == t.last)
    ensures SlotsMoved(s, u, if first == Stay then then_ else first)
  {
  }

  /** Two pieces, at most one of which touches the defaults. */
  lemma WorkedOn(s: State, t: State, u: State, first: Move, then_: Move)
    requires Worked(s, t, first) && Worked(t, u, then_)
    requires first == Stay || (then_ == Stay && u.last == t.last)
    ensures Worked(s, u, if first == Stay then then_ else first)
  {
    assert s.log <= t.log <= u.log;
    hide SlotsMoved, Thinned, EventsFit, EventsFull;
    SlotsMovedOn(s, t, u, first, then_);
    ThinnedOn(s, t, u);
    EventsFitOn(s, t, u, first, then_);
    EventsFullOn(s, t, u, first, then_);
  }

  /** What matters here does not see the counter, the pause or the block state. */
  lemma SameHeld(s: State, t: State)
    requires t == s.(last := t.last, blocked := t.blocked, mobility := t.mobility)
    ensures Worked(s, t, Stay)
  {
    forall k: nat ensures Above(t, k) == Above(s, k) { AboveSame(s, t, k); }
    hide Above;
  }

  lemma AboveSame(s: State, t: State, k: nat)
    requires t.combat == s.combat && t.commands == s.commands && t.claims == s.claims
    ensures Above(t, k) == Above(s, k)
  {
  }

  lemma JustTurned(s: State, t: State, move: Move, from: Option<nat>)
    requires Worked(s, t, move) && s.last <= t.last <= s.last + 1 && (SwapsDefault(move) ==> t.last == s.last + 1)
    ensures Turned(s, t, move, from)
  {
    hide Above, Logs, SlotsMoved, EventsFit, EventsFull;
  }

  // ----- the pieces over the defaults ---------------------------------------------------------------------------

  lemma OneLogged(s: State, t: State, e: Event)
    requires t.log == s.log + [e]
    ensures Logs(s, t, e.what, e.arrival)
    ensures forall i {:trigger t.log[i]} :: |s.log| <= i < |t.log| ==> t.log[i] == e
  {
    assert t.log[|s.log|] == e;
  }

  lemma CombatWorked(s: State, reason: FinishReason)
    ensures Worked(s, FinishCombat(s, reason), Stay)
  {
    var t := FinishCombat(s, reason);
    if s.combat.None? {
      SameHeld(s, t);
    } else {
      OneLogged(s, t, About(s.combat.value, Finished, reason));
      ThinnedCombat(s, t);
      hide Thinned, Above;
      assert Above(s, s.combat.value.arrival) by { CombatAbove(s); }
    }
  }

  lemma CombatAbove(s: State)
    requires s.combat.Some?
    ensures Above(s, s.combat.value.arrival)
  {
  }

  lemma ThinnedCombat(s: State, t: State)
    requires s.combat.Some? && t.combat.None? && t.commands == s.commands && t.claims == s.claims
    requires Logs(s, t, Finished, s.combat.value.arrival)
    ensures Thinned(s, t)
  {
    hide Logs;
  }

  lemma CommandWorked(s: State, i: nat, reason: FinishReason)
    requires Shaped(s) && i < LAYERS
    ensures Worked(s, FinishCommand(s, i, reason), Stay)
  {
    var t := FinishCommand(s, i, reason);
    if s.commands[i].None? {
      assert t == s;
      SameHeld(s, t);
    } else {
      OneLogged(s, t, About(s.commands[i].value, Finished, reason));
      ThinnedCommand(s, t, i);
      hide Thinned, Above;
      assert Above(s, s.commands[i].value.arrival) by { CommandAbove(s, i); }
    }
  }

  lemma CommandAbove(s: State, i: nat)
    requires i < |s.commands| && s.commands[i].Some?
    ensures Above(s, s.commands[i].value.arrival)
  {
    assert Number(s.commands[i]) == Some(s.commands[i].value.arrival);
  }

  lemma ThinnedCommand(s: State, t: State, i: nat)
    requires i < |s.commands| && s.commands[i].Some? && t.combat == s.combat && t.commands == s.commands[i := None]
      && t.claims == s.claims
    requires Logs(s, t, Finished, s.commands[i].value.arrival)
    ensures Thinned(s, t)
  {
    hide Logs;
    forall k: nat {:trigger Above(t, k)} | Above(t, k) ensures Above(s, k) {
      if j :| 0 <= j < |t.commands| && Number(t.commands[j]) == Some(k) { assert s.commands[j] == t.commands[j]; }
    }
    forall k: nat {:trigger Above(s, k)} | Above(s, k) ensures Above(t, k) || Logs(s, t, Finished, k) {
      if j :| 0 <= j < |s.commands| && Number(s.commands[j]) == Some(k) {
        if j != i { assert t.commands[j] == s.commands[j]; }
      }
    }
  }

  lemma ClaimWorked(s: State, i: nat, reason: FinishReason)
    requires i < |s.claims|
    ensures Worked(s, FinishClaim(s, i, reason), Stay)
  {
    var t := FinishClaim(s, i, reason);
    OneLogged(s, t, About(s.claims[i], Finished, reason));
    ThinnedClaim(s, t, i);
    hide Thinned, Above;
    assert Above(s, s.claims[i].arrival) by { ClaimAbove(s, i); }
  }

  lemma ClaimAbove(s: State, i: nat)
    requires i < |s.claims|
    ensures Above(s, s.claims[i].arrival)
  {
  }

  lemma ThinnedClaim(s: State, t: State, i: nat)
    requires i < |s.claims| && t.combat == s.combat && t.commands == s.commands
      && t.claims == s.claims[..i] + s.claims[i + 1..]
    requires Logs(s, t, Finished, s.claims[i].arrival)
    ensures Thinned(s, t)
  {
    hide Logs;
    forall k: nat {:trigger Above(t, k)} | Above(t, k) ensures Above(s, k) {
      if j :| 0 <= j < |t.claims| && t.claims[j].arrival == k {
        ErasedAt(s.claims, i, j);
        assert s.claims[if j < i then j else j + 1].arrival == k;
      }
    }
    forall k: nat {:trigger Above(s, k)} | Above(s, k) ensures Above(t, k) || Logs(s, t, Finished, k) {
      if k != s.claims[i].arrival && exists j :: 0 <= j < |s.claims| && s.claims[j].arrival == k {
        ErasedFind(s.claims, i, k);
      }
    }
  }

  lemma {:induction false} ClaimsWorked(s: State, kind: Option<Kind>, reason: FinishReason)
    ensures Worked(s, FinishClaims(s, kind, reason), Stay)
    decreases |s.claims|
  {
    hide Worked, FinishClaim;
    var b := BestOfKind(s.claims, kind, |s.claims|);
    if b.Some? {
      var t := FinishClaim(s, b.value, reason);
      ClaimGoes(s, b.value, reason);
      ClaimWorked(s, b.value, reason);
      ClaimsWorked(t, kind, reason);
      WorkedOn(s, t, FinishClaims(s, kind, reason), Stay, Stay);
    } else {
      SameHeld(s, s);
    }
  }

  lemma ClaimGoes(s: State, i: nat, reason: FinishReason)
    requires i < |s.claims|
    ensures |FinishClaim(s, i, reason).claims| == |s.claims| - 1 && FinishClaim(s, i, reason).last == s.last
  {
  }

  lemma {:induction false} CommandsWorked(s: State, from: nat, reason: FinishReason)
    requires Shaped(s)
    ensures Worked(s, FinishCommands(s, from, reason), Stay) && FinishCommands(s, from, reason).last == s.last
    decreases LAYERS - from
  {
    hide Worked, FinishCommand;
    if from < LAYERS {
      var t := FinishCommand(s, from, reason);
      CommandWorked(s, from, reason);
      CommandsWorked(t, from + 1, reason);
      WorkedOn(s, t, FinishCommands(s, from, reason), Stay, Stay);
    } else {
      SameHeld(s, s);
    }
  }

  lemma {:induction false} OverrideWorked(s: State, i: nat, lower: nat)
    requires Shaped(s) && i < LAYERS
    ensures Worked(s, OverrideBelow(s, i, lower), Stay)
    decreases i - lower
  {
    hide Worked, FinishCommand;
    if lower >= i {
      SameHeld(s, s);
    } else if lower == CONTROL {
      OverrideWorked(s, i, lower + 1);
    } else {
      var t := FinishCommand(s, lower, Overridden);
      CommandWorked(s, lower, Overridden);
      OverrideWorked(t, i, lower + 1);
      OverrideLeaves(s, i, lower);
      OverrideLeaves(t, i, lower + 1);
      WorkedOn(s, t, OverrideBelow(s, i, lower), Stay, Stay);
    }
  }

  // ----- the pieces that touch the defaults ---------------------------------------------------------------------

  lemma AboveUntouched(s: State, t: State)
    requires t.combat == s.combat && t.commands == s.commands && t.claims == s.claims
    ensures Thinned(s, t)
  {
    forall k: nat ensures Above(t, k) == Above(s, k) { AboveSame(s, t, k); }
    hide Above;
  }

  lemma PopWorked(s: State, reason: FinishReason)
    ensures Worked(s, PopDefault(s, reason), Pop)
  {
    var t := PopDefault(s, reason);
    AboveUntouched(s, t);
    if s.dflt.Some? { OneLogged(s, t, About(s.dflt.value, Finished, reason)); }
    hide Thinned, Above;
  }

  /** Both defaults finished, the one on top first. */
  lemma BothWorked(s: State, reason: FinishReason)
    ensures Worked(s, FinishFallback(FinishDefault(s, reason), reason), EndBoth)
  {
    var u := FinishDefault(s, reason);
    var t := FinishFallback(u, reason);
    BothLogged(s, u, t, reason);
    AboveUntouched(s, t);
    hide Thinned, Above, Logs;
    forall i {:trigger t.log[i]} | |s.log| <= i < |t.log|
      ensures t.log[i].what == Finished && EventFits(s, EndBoth, t.log[i])
    {
    }
  }

  lemma BothLogged(s: State, u: State, t: State, reason: FinishReason)
    requires u == FinishDefault(s, reason) && t == FinishFallback(u, reason)
    ensures s.log <= t.log && EventsFull(s, t, EndBoth)
    ensures forall i {:trigger t.log[i]} :: |s.log| <= i < |t.log| ==>
      t.log[i].what == Finished
        && (Number(s.dflt) == Some(t.log[i].arrival) || Number(s.fallback) == Some(t.log[i].arrival))
  {
    hide Above;
    if s.dflt.Some? {
      OneLogged(s, u, About(s.dflt.value, Finished, reason));
      LogsLonger(s, u, t, Finished, s.dflt.value.arrival);
    }
    if s.fallback.Some? {
      OneLogged(u, t, About(s.fallback.value, Finished, reason));
      LogsLonger(s, u, t, Finished, s.fallback.value.arrival);
    }
    hide Logs;
    forall i {:trigger t.log[i]} | |s.log| <= i < |t.log|
      ensures t.log[i].what == Finished
        && (Number(s.dflt) == Some(t.log[i].arrival) || Number(s.fallback) == Some(t.log[i].arrival))
    {
      if i < |u.log| { assert t.log[i] == u.log[i]; }
    }
  }

  lemma PushWorked(s: State, held: Held)
    requires held.arrival == s.last
    ensures Worked(s, Pushed(s, held), Push)
  {
    var t := Pushed(s, held);
    AboveUntouched(s, t);
    if s.dflt.Some? {
      OneLogged(s, t, Event(DefaultSwapped, s.dflt.value.kind, s.dflt.value.id, Superseded, 0, s.dflt.value.arrival));
    }
    hide Thinned, Above;
  }

  lemma ReplaceTurned(s: State, held: Held)
    requires held.arrival == s.last + 1
    ensures Turned(s, Swapped(s).(dflt := Some(held), fallback := None, last := s.last + 1), Replace, None)
  {
    var t := Swapped(s).(dflt := Some(held), fallback := None, last := s.last + 1);
    AboveUntouched(s, t);
    if s.dflt.Some? {
      OneLogged(s, t, Event(DefaultSwapped, s.dflt.value.kind, s.dflt.value.id, Superseded, 0, s.dflt.value.arrival));
    }
    hide Thinned, Above;
    JustTurned(s, t, Replace, None);
  }

  // ----- what comes in over the defaults ------------------------------------------------------------------------

  lemma RenewedBy(s: State, v: State, t: State, from: Option<nat>)
    requires Worked(s, v, Stay) && v.log == t.log && t.last == s.last + 1
    requires Number(t.dflt) == Number(v.dflt) && Number(t.fallback) == Number(v.fallback)
    requires forall k: nat {:trigger Above(t, k)} :: Above(t, k) ==> Above(v, k) || k == t.last
    requires forall k: nat {:trigger Above(v, k)} :: Above(v, k) ==>
      Above(t, k) || (from == Some(k) && Above(t, t.last))
    ensures Turned(s, t, Stay, from)
  {
    hide Above;
    forall k: nat {:trigger Above(s, k)} | Above(s, k)
      ensures Above(t, k) || Logs(s, t, Finished, k) || (from == Some(k) && Above(t, t.last))
    {
      if Logs(s, v, Finished, k) { assert Logs(s, t, Finished, k); }
    }
  }

  lemma CommandPutTurned(s: State, v: State, i: nat, held: Held)
    requires Worked(s, v, Stay) && v.last == s.last + 1 == held.arrival && i < |v.commands| && v.commands[i].None?
    ensures Turned(s, v.(commands := v.commands[i := Some(held)]), Stay, None)
  {
    hide Worked;
    var t := v.(commands := v.commands[i := Some(held)]);
    forall k: nat {:trigger Above(t, k)} | Above(t, k) ensures Above(v, k) || k == t.last {
      if j :| 0 <= j < |t.commands| && Number(t.commands[j]) == Some(k) {
        if j != i { assert v.commands[j] == t.commands[j]; }
      }
    }
    forall k: nat {:trigger Above(v, k)} | Above(v, k) ensures Above(t, k) {
      if j :| 0 <= j < |v.commands| && Number(v.commands[j]) == Some(k) { assert t.commands[j] == v.commands[j]; }
    }
    hide Above;
    RenewedBy(s, v, t, None);
  }

  lemma CombatTurned(s: State, v: State, held: Held)
    requires Worked(s, v, Stay) && v.last == s.last + 1 == held.arrival && v.combat == s.combat
    ensures Turned(s, RequestCombat(v, held), Stay, Number(s.combat))
  {
    hide Worked;
    var t := RequestCombat(v, held);
    forall k: nat {:trigger Above(t, k)} | Above(t, k) ensures Above(v, k) || k == t.last {}
    assert Above(t, t.last);
    forall k: nat {:trigger Above(v, k)} | Above(v, k) ensures Above(t, k) || Number(s.combat) == Some(k) {}
    hide Above;
    RenewedBy(s, v, t, Number(s.combat));
  }

  lemma ClaimTurned(s: State, v: State, held: Held)
    requires Worked(s, v, Stay) && v.last == s.last + 1 == held.arrival && v.claims == s.claims
    ensures var i := ClaimIndex(s.claims, held.claim);
      Turned(s, RequestClaim(v, held), Stay, if i < |s.claims| then Some(s.claims[i].arrival) else None)
  {
    hide Worked;
    var i := ClaimIndex(s.claims, held.claim);
    var t, from := RequestClaim(v, held), if i < |s.claims| then Some(s.claims[i].arrival) else None;
    assert t.claims[i].arrival == held.arrival;
    assert Above(t, t.last);
    forall k: nat {:trigger Above(t, k)} | Above(t, k) ensures Above(v, k) || k == t.last {
      if j :| 0 <= j < |t.claims| && t.claims[j].arrival == k {
        if j != i { assert v.claims[j] == t.claims[j]; }
      }
    }
    forall k: nat {:trigger Above(v, k)} | Above(v, k) ensures Above(t, k) || from == Some(k) {
      if j :| 0 <= j < |v.claims| && v.claims[j].arrival == k {
        if j != i { assert t.claims[j] == v.claims[j]; }
      }
    }
    hide Above;
    RenewedBy(s, v, t, from);
  }

  // ----- comparing the selections changes nothing here -----------------------------------------------------------

  /** The same numbers in the same places, and no ending events. */
  ghost predicate Quiet(s: State, t: State) {
    && s.log <= t.log && t.last == s.last && Number(t.dflt) == Number(s.dflt)
         && Number(t.fallback) == Number(s.fallback)
    && (forall k: nat {:trigger Above(t, k)} {:trigger Above(s, k)} :: Above(t, k) == Above(s, k))
    && (forall i {:trigger t.log[i]} :: |s.log| <= i < |t.log| ==>
         t.log[i].what == Suspended || t.log[i].what == Resumed)
  }

  lemma QuietOn(s: State, t: State, u: State)
    requires Quiet(s, t) && Quiet(t, u)
    ensures Quiet(s, u)
  {
    hide Above;
    forall k: nat {:trigger Above(u, k)} {:trigger Above(s, k)}
      ensures Above(u, k) == Above(s, k)
    {
      assert Above(u, k) == Above(t, k);
    }
    forall i {:trigger u.log[i]} | |s.log| <= i < |u.log|
      ensures u.log[i].what == Suspended || u.log[i].what == Resumed
    {
      if i < |t.log| { assert u.log[i] == t.log[i]; }
    }
  }

  lemma LogQuiet(s: State, t: State)
    requires t == s.(log := t.log, blocked := t.blocked) && s.log <= t.log
    requires forall i {:trigger t.log[i]} :: |s.log| <= i < |t.log| ==>
      t.log[i].what == Suspended || t.log[i].what == Resumed
    ensures Quiet(s, t)
  {
    forall k: nat ensures Above(t, k) == Above(s, k) { AboveSame(s, t, k); }
    hide Above;
  }

  lemma StartedQuiet(s: State)
    requires Shaped(s)
    ensures Quiet(s, Started(s))
  {
    var t := Started(s);
    hide Selected;
    assert forall i {:trigger t.commands[i]} {:trigger s.commands[i]} :: 0 <= i < |s.commands| ==>
      Number(t.commands[i]) == Number(s.commands[i]);
    assert forall i {:trigger t.claims[i]} {:trigger s.claims[i]} :: 0 <= i < |s.claims| ==>
      t.claims[i].arrival == s.claims[i].arrival;
    assert t.log == s.log && t.last == s.last && Number(t.combat) == Number(s.combat)
      && Number(t.dflt) == Number(s.dflt) && t.fallback == s.fallback;
    assert |t.commands| == |s.commands| && |t.claims| == |s.claims|;
    hide Started, SelectedLayer;
    forall k: nat ensures Above(t, k) == Above(s, k) { AboveRelabelled(s, t, k); }
    hide Above;
  }

  lemma AboveRelabelled(s: State, t: State, k: nat)
    requires |t.commands| == |s.commands| && |t.claims| == |s.claims| && Number(t.combat) == Number(s.combat)
    requires forall i {:trigger t.commands[i]} {:trigger s.commands[i]} :: 0 <= i < |s.commands| ==>
      Number(t.commands[i]) == Number(s.commands[i])
    requires forall i {:trigger t.claims[i]} {:trigger s.claims[i]} :: 0 <= i < |s.claims| ==>
      t.claims[i].arrival == s.claims[i].arrival
    ensures Above(t, k) == Above(s, k)
  {
  }

  lemma ChangedQuiet(s: State, before: Option<Held>)
    requires Shaped(s)
    ensures Quiet(s, Changed(s, before))
  {
    ChangedSame(s, before);
    ChangedLogs(s, before);
    hide Changed, Selected;
    LogQuiet(s, Changed(s, before));
  }

  lemma ReconciledQuiet(s: State)
    requires Shaped(s)
    ensures Quiet(s, Reconciled(s))
  {
    ReconciledIs(s);
    ReconciledLogs(s);
    hide Reconciled, Selected, PauseDue;
    LogQuiet(s, Reconciled(s));
  }

  lemma ReselectedQuiet(s: State, before: Option<Held>)
    requires Shaped(s)
    ensures Quiet(s, Reselected(s, before))
  {
    hide *;
    var c := Changed(s, before);
    ReselectedIs(s, before);
    ChangedQuiet(s, before);
    StartedQuiet(c);
    ReconciledQuiet(Started(c));
    QuietOn(s, c, Started(c));
    QuietOn(s, Started(c), Reconciled(Started(c)));
  }

  lemma QuietLogs(s: State, t: State, r: State, what: EventKind, k: nat)
    requires s.log <= t.log && Quiet(t, r)
    ensures Logs(s, t, what, k) ==> Logs(s, r, what, k)
  {
    hide Above;
    LogsLonger(s, t, r, what, k);
  }

  lemma QuietFits(s: State, t: State, r: State, move: Move)
    requires EventsFit(s, t, move) && Quiet(t, r)
    ensures EventsFit(s, r, move)
  {
    hide Above, SwapsDefault, EndsDefault;
    forall i {:trigger r.log[i]} | |s.log| <= i < |r.log|
      ensures EventFits(s, move, r.log[i]) && (i < |t.log| ==> r.log[i] == t.log[i])
        && (i >= |t.log| ==> r.log[i].what != DefaultSwapped)
    {
      if i < |t.log| { assert r.log[i] == t.log[i]; }
    }
  }

  lemma QuietTurned(s: State, t: State, r: State, move: Move, from: Option<nat>)
    requires Turned(s, t, move, from) && Quiet(t, r)
    ensures Turned(s, r, move, from)
  {
    hide Above, Logs, EventFits;
    QuietFits(s, t, r, move);
    hide EventsFit;
    forall what, k: nat ensures Logs(s, t, what, k) ==> Logs(s, r, what, k) { QuietLogs(s, t, r, what, k); }
  }

  // ----- every operation ------------------------------------------------------------------------------------------

  /** One operation by way of the state before the selections are compared. */
  lemma ByComparison(s: State, op: Op, t: State)
    requires Shaped(s) && Shaped(t) && Turned(s, t, MoveOf(s, op), UpdatedFrom(s, op))
      && Step(s, op) == Reselected(t, Selected(s))
    ensures Turned(s, Step(s, op), MoveOf(s, op), UpdatedFrom(s, op))
  {
    hide *;
    ReselectedQuiet(t, Selected(s));
    QuietTurned(s, t, Reselected(t, Selected(s)), MoveOf(s, op), UpdatedFrom(s, op));
  }

  lemma ComparedWork(s: State, op: Op, t: State)
    requires Shaped(s) && Shaped(t) && Worked(s, t, MoveOf(s, op)) && !SwapsDefault(MoveOf(s, op)) && t.last == s.last
    requires Step(s, op) == Reselected(t, Selected(s))
    ensures Turned(s, Step(s, op), MoveOf(s, op), UpdatedFrom(s, op))
  {
    hide Worked, Turned, MoveOf, UpdatedFrom, Step, Reselected, Selected;
    JustTurned(s, t, MoveOf(s, op), UpdatedFrom(s, op));
    ByComparison(s, op, t);
  }

  lemma Unturned(s: State, op: Op, t: State)
    requires Shaped(s) && t == s.(log := t.log, blocked := t.blocked, mobility := t.mobility) && MoveOf(s, op) == Stay
      && s.log <= t.log
    requires forall i {:trigger t.log[i]} :: |s.log| <= i < |t.log| ==>
      t.log[i].what == Suspended || t.log[i].what == Resumed
    ensures Turned(s, t, MoveOf(s, op), UpdatedFrom(s, op))
  {
    var u := s.(blocked := t.blocked, mobility := t.mobility);
    SameHeld(s, u);
    LogQuiet(u, t);
    hide Worked, Quiet, MoveOf, UpdatedFrom;
    JustTurned(s, u, Stay, UpdatedFrom(s, op));
    QuietTurned(s, u, t, Stay, UpdatedFrom(s, op));
  }

  lemma InstallTurned(s: State, op: Op)
    requires Shaped(s) && op.DoInstallDefault?
    ensures Turned(s, Step(s, op), MoveOf(s, op), UpdatedFrom(s, op))
  {
    hide Turned, Reselected, Selected, Swapped;
    var held := Stamped(s, op.kind, 0, 0);
    ReplaceTurned(s, held);
    ByComparison(s, op, Swapped(s).(dflt := Some(held), fallback := None, last := s.last + 1));
  }

  lemma DefaultTurned(s: State, v: State, held: Held, policy: Policy, empty: bool)
    requires Shaped(s) && Shaped(v) && Worked(s, v, Stay) && v.last == s.last + 1 == held.arrival
    ensures Turned(s, RequestDefault(v, held, policy, empty), if held.kind == Idle && !empty then Stay else Push, None)
  {
    hide Worked, Turned, FinishCommand, FinishCombat, Pushed;
    if held.kind == Idle && !empty {
      var scripted := v.commands[SCRIPTED];
      if scripted.Some? && scripted.value.kind == Idle {
        JustTurned(s, v, Stay, None);
      } else {
        IdleTurned(s, v, held);
      }
    } else {
      PushTurned(s, v, held, policy, empty);
    }
  }

  lemma IdleTurned(s: State, v: State, held: Held)
    requires Shaped(v) && Worked(s, v, Stay) && v.last == s.last + 1 == held.arrival
    ensures var t := FinishCommand(v, SCRIPTED, Superseded); Turned(s,
      t.(commands := t.commands[SCRIPTED := Some(held)]), Stay, None)
  {
    hide Worked, Turned;
    var t := FinishCommand(v, SCRIPTED, Superseded);
    CommandWorked(v, SCRIPTED, Superseded);
    WorkedOn(s, v, t, Stay, Stay);
    CommandPutTurned(s, t, SCRIPTED, held);
  }

  lemma LastStays(s: State, i: nat, reason: FinishReason)
    requires Shaped(s) && i < LAYERS
    ensures FinishCommand(s, i, reason).last == s.last && FinishCombat(s, reason).last == s.last
  {
  }

  lemma PushTurned(s: State, v: State, held: Held, policy: Policy, empty: bool)
    requires Shaped(v) && Worked(s, v, Stay) && v.last == s.last + 1 == held.arrival && !(held.kind == Idle && !empty)
    ensures Turned(s, RequestDefault(v, held, policy, empty), Push, None)
  {
    hide Worked, Turned, FinishCommand, FinishCombat, Pushed, RequestDefault;
    RequestDefaultIs(v, held, policy, empty);
    var p := Pushed(v, held);
    PushWorked(v, held);
    WorkedOn(s, v, p, Stay, Push);
    PushedLast(v, held);
    if policy == Override {
      var a := FinishCombat(p, Overridden);
      var b := FinishCommand(a, SCRIPTED, Overridden);
      var c := FinishCommand(b, DISTRACT, Overridden);
      LastStays(p, SCRIPTED, Overridden);
      LastStays(a, SCRIPTED, Overridden);
      LastStays(b, DISTRACT, Overridden);
      CombatWorked(p, Overridden);
      CommandWorked(a, SCRIPTED, Overridden);
      CommandWorked(b, DISTRACT, Overridden);
      WorkedOn(s, p, a, Push, Stay);
      WorkedOn(s, a, b, Push, Stay);
      WorkedOn(s, b, c, Push, Stay);
      JustTurned(s, c, Push, None);
    } else {
      JustTurned(s, p, Push, None);
    }
  }

  lemma PushedLast(s: State, held: Held)
    ensures Pushed(s, held).last == s.last
  {
  }

  lemma CommandTurned(s: State, v: State, held: Held, i: nat, policy: Policy)
    requires Shaped(v) && Worked(s, v, Stay) && v.last == s.last + 1 == held.arrival && i < LAYERS
    ensures Turned(s, RequestCommand(v, held, i, policy), Stay, None)
  {
    hide Worked, Turned, FinishCommand, OverrideBelow, FinishCombat;
    var t := FinishCommand(v, i, Superseded);
    CommandWorked(v, i, Superseded);
    WorkedOn(s, v, t, Stay, Stay);
    LastStays(v, i, Superseded);
    CommandGone(v, i, Superseded);
    if policy == Override {
      var u := OverrideBelow(t, i, SCRIPTED);
      OverrideWorked(t, i, SCRIPTED);
      OverrideLeaves(t, i, SCRIPTED);
      WorkedOn(s, t, u, Stay, Stay);
      CombatWorked(u, Overridden);
      WorkedOn(s, u, FinishCombat(u, Overridden), Stay, Stay);
      LastStays(u, i, Overridden);
      CombatLeaves(u, Overridden);
      t := FinishCombat(u, Overridden);
    }
    CommandPutTurned(s, t, i, held);
  }

  lemma CommandGone(s: State, i: nat, reason: FinishReason)
    requires Shaped(s) && i < LAYERS
    ensures FinishCommand(s, i, reason).commands == s.commands[i := None]
  {
  }

  lemma CombatLeaves(s: State, reason: FinishReason)
    ensures FinishCombat(s, reason).commands == s.commands
  {
  }

  lemma SelfExpiredWorked(s: State, layer: Layer)
    requires Shaped(s)
    ensures Worked(s, SelfExpired(s, layer).(last := s.last + 1), Stay)
  {
    var t := SelfExpired(s, layer);
    var before := Selected(s);
    if before.Some? && SelfExpiring(before.value.kind) && LayerOf(before.value.kind) != layer {
      CommandWorked(s, Index(LayerOf(before.value.kind)), Cancelled);
    } else {
      SameHeld(s, s);
    }
    hide Worked, SelfExpired;
    SameHeld(t, t.(last := s.last + 1));
    WorkedOn(s, t, t.(last := s.last + 1), Stay, Stay);
  }

  lemma RequestTurned(s: State, op: Op)
    requires Shaped(s) && op.DoRequest? && !Refused(s, op.request, op.discarding)
    ensures Turned(s, Step(s, op), MoveOf(s, op), UpdatedFrom(s, op))
  {
    var layer := LayerOf(op.request.kind);
    var v, held := SelfExpired(s, layer).(last := s.last + 1), RequestHeld(s, op.request);
    RequestMoves(s, op, v, held);
    RequestIs(s, op.request, op.discarding);
    SelfExpiredWorked(s, layer);
    SelfExpiredKept(s, layer);
    hide *;
    PlacedTurned(s, op, v, held);
    ByComparison(s, op, Placed(v, op.request, held));
  }

  /** What the guards and the update amount to, layer by layer. */
  lemma RequestMoves(s: State, op: Op, v: State, held: Held)
    requires Shaped(s) && op.DoRequest? && !Refused(s, op.request, op.discarding)
    requires v == SelfExpired(s, LayerOf(op.request.kind)).(last := s.last + 1) && held == RequestHeld(s, op.request)
    ensures held.arrival == s.last + 1 && held.kind == op.request.kind
    ensures LayerOf(op.request.kind) == DefaultLayer ==>
      MoveOf(s, op) == if held.kind == Idle && !Selected(v).None? then Stay else Push
    ensures LayerOf(op.request.kind) != DefaultLayer ==> MoveOf(s, op) == Stay
    ensures LayerOf(op.request.kind) == CombatLayer ==> UpdatedFrom(s, op) == Number(s.combat)
    ensures LayerOf(op.request.kind) == ControlLayer ==> held.claim == op.request.claim
    ensures LayerOf(op.request.kind) == ControlLayer ==>
      var i := ClaimIndex(s.claims, held.claim); UpdatedFrom(s, op) == if i < |s.claims|
        then Some(s.claims[i].arrival) else None
    ensures LayerOf(op.request.kind) != CombatLayer && LayerOf(op.request.kind) != ControlLayer ==>
      UpdatedFrom(s, op) == None
  {
    SameSelectionLast(SelfExpired(s, LayerOf(op.request.kind)), s.last + 1);
    hide SelfExpired, Selected;
  }

  lemma SameSelectionLast(s: State, last: nat)
    requires Shaped(s)
    ensures Selected(s.(last := last)) == Selected(s)
  {
  }

  lemma PlacedTurned(s: State, op: Op, v: State, held: Held)
    requires Shaped(s) && Shaped(v) && op.DoRequest? && Worked(s, v, Stay) && v.last == s.last + 1 == held.arrival
      && v.combat == s.combat && v.claims == s.claims
    requires held.kind == op.request.kind
    requires LayerOf(op.request.kind) == DefaultLayer ==>
      MoveOf(s, op) == if held.kind == Idle && !Selected(v).None? then Stay else Push
    requires LayerOf(op.request.kind) != DefaultLayer ==> MoveOf(s, op) == Stay
    requires LayerOf(op.request.kind) == CombatLayer ==> UpdatedFrom(s, op) == Number(s.combat)
    requires LayerOf(op.request.kind) == ControlLayer ==> held.claim == op.request.claim
    requires LayerOf(op.request.kind) == ControlLayer ==>
      var i := ClaimIndex(s.claims, held.claim); UpdatedFrom(s, op) == if i < |s.claims|
        then Some(s.claims[i].arrival) else None
    requires LayerOf(op.request.kind) != CombatLayer && LayerOf(op.request.kind) != ControlLayer ==>
      UpdatedFrom(s, op) == None
    ensures Turned(s, Placed(v, op.request, held), MoveOf(s, op), UpdatedFrom(s, op))
  {
    var policy := PolicyOf(op.request.kind, op.request.resumeCombat);
    hide Worked, Turned, MoveOf, UpdatedFrom, RequestDefault, RequestCombat, RequestClaim, RequestCommand, Selected,
      PolicyOf;
    match LayerOf(op.request.kind)
    case DefaultLayer => DefaultTurned(s, v, held, policy, Selected(v).None?);
    case CombatLayer => CombatTurned(s, v, held);
    case ControlLayer => ClaimTurned(s, v, held);
    case _ => CommandTurned(s, v, held, Index(LayerOf(op.request.kind)), policy);
  }

  lemma ClearTurned(s: State, op: Op)
    requires Shaped(s) && op.DoClear?
    ensures Turned(s, Step(s, op), MoveOf(s, op), UpdatedFrom(s, op))
  {
    var t := FinishCombat(FinishCommands(s, SCRIPTED, Cleared), Cleared);
    hide Worked, Turned, UpdatedFrom, FinishCommands, FinishCombat, FinishClaims, FinishDefault, FinishFallback,
      PopDefault, Reselected, Selected;
    ClearedWork(s);
    if op.all {
      var c := FinishClaims(t, None, Cleared);
      ClaimsWorked(t, None, Cleared);
      WorkedOn(s, t, c, Stay, Stay);
      BothWorked(c, Cleared);
      WorkedOn(s, c, FinishFallback(FinishDefault(c, Cleared), Cleared), Stay, EndBoth);
      BothLast(c, Cleared);
      ComparedWork(s, op, FinishFallback(FinishDefault(c, Cleared), Cleared));
    } else if t.fallback.Some? {
      PopWorked(t, Cleared);
      WorkedOn(s, t, PopDefault(t, Cleared), Stay, Pop);
      BothLast(t, Cleared);
      ComparedWork(s, op, PopDefault(t, Cleared));
    } else {
      ComparedWork(s, op, t);
    }
  }

  lemma ClearedWork(s: State)
    requires Shaped(s)
    ensures var t := FinishCombat(FinishCommands(s, SCRIPTED, Cleared), Cleared);
      Worked(s, t, Stay) && t.last == s.last && t.fallback == s.fallback
        && FinishClaims(t, None, Cleared).last == s.last
  {
    hide Worked, FinishCommands;
    var u := FinishCommands(s, SCRIPTED, Cleared);
    CommandsWorked(s, SCRIPTED, Cleared);
    CombatWorked(u, Cleared);
    WorkedOn(s, u, FinishCombat(u, Cleared), Stay, Stay);
  }

  lemma BothLast(s: State, reason: FinishReason)
    ensures FinishFallback(FinishDefault(s, reason), reason).last == s.last && PopDefault(s, reason).last == s.last
  {
  }

  /** Finishing what is selected, whatever layer it is on. */
  lemma FinishTurned(s: State, op: Op, reason: FinishReason)
    requires Shaped(s) && Step(s, op) == FinishSelected(s, reason) && MoveOf(s, op) == if SelectedLayer(s)
      == Some(DefaultLayer) then Pop else Stay
    ensures Turned(s, Step(s, op), MoveOf(s, op), UpdatedFrom(s, op))
  {
    hide Worked, Turned, MoveOf, UpdatedFrom, Step, FinishCombat, FinishClaim, FinishCommand, PopDefault, Reselected,
      Selected;
    BothLast(s, reason);
    match SelectedLayer(s)
    case None => Unturned(s, op, s);
    case Some(DefaultLayer) =>
      PopWorked(s, reason);
      ComparedWork(s, op, PopDefault(s, reason));
    case Some(CombatLayer) =>
      CombatWorked(s, reason);
      LastStays(s, 2, reason);
      ComparedWork(s, op, FinishCombat(s, reason));
    case Some(ControlLayer) =>
      var i := BestClaim(s.claims, |s.claims|);
      ClaimWorked(s, i, reason);
      ClaimGoes(s, i, reason);
      FinishClaimShaped(s, i, reason);
      ComparedWork(s, op, FinishClaim(s, i, reason));
    case Some(layer) =>
      CommandWorked(s, Index(layer), reason);
      LastStays(s, Index(layer), reason);
      ComparedWork(s, op, FinishCommand(s, Index(layer), reason));
  }

  lemma ExpireSelectedTurned(s: State, op: Op)
    requires Shaped(s) && op.DoExpireSelected?
    ensures Turned(s, Step(s, op), MoveOf(s, op), UpdatedFrom(s, op))
  {
    hide Worked, Turned, UpdatedFrom, PopDefault, Reselected, Selected, SelectedLayer, FinishSelected;
    match SelectedLayer(s)
    case None => Unturned(s, op, s);
    case Some(DefaultLayer) =>
      if s.fallback.Some? {
        LayerHolds(s);
        var reason := if s.dflt.value.kind == Follow then TargetLost else Expired;
        PopWorked(s, reason);
        BothLast(s, reason);
        ComparedWork(s, op, PopDefault(s, reason));
      } else {
        Unturned(s, op, s);
      }
    case Some(CombatLayer) => FinishTurned(s, op, TargetLost);
    case Some(ControlLayer) => Unturned(s, op, s);
    case Some(_) => FinishTurned(s, op, Expired);
  }

  lemma LayerHolds(s: State)
    requires Shaped(s) && SelectedLayer(s) == Some(DefaultLayer)
    ensures s.dflt.Some?
  {
  }

  lemma ExpireTurned(s: State, op: Op)
    requires Shaped(s) && op.DoExpire?
    ensures Turned(s, Step(s, op), MoveOf(s, op), UpdatedFrom(s, op))
  {
    hide Worked, Turned, UpdatedFrom, FinishCombat, FinishClaim, FinishCommand, PopDefault, Reselected, Selected;
    if LayerOf(op.expired) == ControlLayer {
      var b := NewestOfKind(s.claims, op.expired, |s.claims|);
      if b.Some? {
        ClaimWorked(s, b.value, Expired);
        ClaimGoes(s, b.value, Expired);
        FinishClaimShaped(s, b.value, Expired);
        ComparedWork(s, op, FinishClaim(s, b.value, Expired));
      } else {
        Unturned(s, op, s);
      }
    } else {
      var b := HighestOfKind(s.commands, op.expired, LAYERS);
      if b.Some? {
        CommandWorked(s, b.value, Expired);
        LastStays(s, b.value, Expired);
        ComparedWork(s, op, FinishCommand(s, b.value, Expired));
      } else if s.combat.Some? && s.combat.value.kind == op.expired {
        CombatWorked(s, TargetLost);
        LastStays(s, 2, TargetLost);
        ComparedWork(s, op, FinishCombat(s, TargetLost));
      } else if ExpiresDefault(s, op.expired) {
        var reason := if op.expired == Follow then TargetLost else Expired;
        PopWorked(s, reason);
        BothLast(s, reason);
        ComparedWork(s, op, PopDefault(s, reason));
      } else {
        Unturned(s, op, s);
      }
    }
  }

  lemma ControlTurned(s: State, op: Op)
    requires Shaped(s) && (op.DoCancelControl? || op.DoRelease? || op.DoNotifyCombat?)
    ensures Turned(s, Step(s, op), MoveOf(s, op), UpdatedFrom(s, op))
  {
    hide Worked, Turned, UpdatedFrom, FinishClaim, FinishClaims, FinishCommand, Reselected, Selected;
    if op.DoCancelControl? {
      ClaimsWorked(s, Some(op.cancelled), Cancelled);
      ComparedWork(s, op, FinishClaims(s, Some(op.cancelled), Cancelled));
    } else if op.DoNotifyCombat? {
      CommandWorked(s, DISTRACT, Cancelled);
      LastStays(s, DISTRACT, Cancelled);
      ComparedWork(s, op, FinishCommand(s, DISTRACT, Cancelled));
    } else {
      var i := ClaimIndex(s.claims, op.claim);
      if i < |s.claims| {
        ClaimWorked(s, i, Cancelled);
        ClaimGoes(s, i, Cancelled);
        FinishClaimShaped(s, i, Cancelled);
        ComparedWork(s, op, FinishClaim(s, i, Cancelled));
      } else {
        Unturned(s, op, s);
      }
    }
  }

  lemma DieTurned(s: State, op: Op)
    requires Shaped(s) && op.DoDie?
    ensures Turned(s, Step(s, op), MoveOf(s, op), UpdatedFrom(s, op))
  {
    hide Worked, Turned, UpdatedFrom, FinishDefault, FinishFallback, FinishCombat, FinishCommand, FinishClaims;
    var b := FinishFallback(FinishDefault(s, Died), Died);
    var c := FinishCombat(b, Died);
    var e := FinishCommand(FinishCommand(c, 2, Died), 3, Died);
    var t := FinishCommand(FinishCommand(FinishClaims(e, None, Died), 5, Died), 6, Died);
    DiesLower(s);
    DiesUpper(e);
    WorkedOn(s, e, t, EndBoth, Stay);
    SameHeld(t, Step(s, op));
    WorkedOn(s, t, Step(s, op), EndBoth, Stay);
    JustTurned(s, Step(s, op), EndBoth, UpdatedFrom(s, op));
  }

  lemma DiesLower(s: State)
    requires Shaped(s)
    ensures var c := FinishCombat(FinishFallback(FinishDefault(s, Died), Died), Died);
      Shaped(c) && Worked(s, FinishCommand(FinishCommand(c, 2, Died), 3, Died), EndBoth)
      && FinishCommand(FinishCommand(c, 2, Died), 3, Died).last == s.last
  {
    hide Worked, FinishDefault, FinishFallback, FinishCombat, FinishCommand;
    var b := FinishFallback(FinishDefault(s, Died), Died);
    var c := FinishCombat(b, Died);
    var d := FinishCommand(c, 2, Died);
    BothWorked(s, Died);
    BothLast(s, Died);
    CombatWorked(b, Died);
    CombatLeaves(b, Died);
    LastStays(b, 2, Died);
    WorkedOn(s, b, c, EndBoth, Stay);
    CommandWorked(c, 2, Died);
    LastStays(c, 2, Died);
    WorkedOn(s, c, d, EndBoth, Stay);
    CommandWorked(d, 3, Died);
    LastStays(d, 3, Died);
    WorkedOn(s, d, FinishCommand(d, 3, Died), EndBoth, Stay);
  }

  lemma DiesUpper(e: State)
    requires Shaped(e)
    ensures var f := FinishClaims(e, None, Died);
      Shaped(f) && Worked(e, FinishCommand(FinishCommand(f, 5, Died), 6, Died), Stay)
        && FinishCommand(FinishCommand(f, 5, Died), 6, Died).last == e.last
  {
    hide Worked, FinishCommand, FinishClaims;
    var f := FinishClaims(e, None, Died);
    var g := FinishCommand(f, 5, Died);
    ClaimsWorked(e, None, Died);
    CommandWorked(f, 5, Died);
    LastStays(f, 5, Died);
    WorkedOn(e, f, g, Stay, Stay);
    CommandWorked(g, 6, Died);
    LastStays(g, 6, Died);
    WorkedOn(e, g, FinishCommand(g, 6, Died), Stay, Stay);
  }

  lemma InhibitTurned(s: State, op: Op)
    requires Shaped(s) && (op.DoInhibit? || op.DoUninhibit?)
    ensures Turned(s, Step(s, op), MoveOf(s, op), UpdatedFrom(s, op))
  {
    hide *;
    var t, form := InhibitForm(s, op);
    InhibitStays(s, op);
    FormedQuiet(s, op, Step(s, op), t, form);
    Unturned(s, op, Step(s, op));
  }

  lemma InhibitStays(s: State, op: Op)
    requires Shaped(s) && (op.DoInhibit? || op.DoUninhibit?)
    ensures MoveOf(s, op) == Stay
  {
  }

  lemma FormedQuiet(s: State, op: Op, r: State, t: State, form: Form)
    requires Formed(s, op, r, t, form) && form != Compared && form != Ended
    ensures s.log <= r.log && r == s.(log := r.log, blocked := r.blocked, mobility := r.mobility)
    ensures forall i {:trigger r.log[i]} :: |s.log| <= i < |r.log| ==>
      r.log[i].what == Suspended || r.log[i].what == Resumed
  {
    hide Reconciled, Selected, PauseDue, UpdatedFrom, Evaluate;
    if form == Paused {
      ReconciledIs(t);
      ReconciledLogs(t);
    }
  }

  /** Every operation turns the state over as its guards say. */
  lemma StepTurned(s: State, op: Op)
    requires Shaped(s)
    ensures Turned(s, Step(s, op), MoveOf(s, op), UpdatedFrom(s, op))
  {
    hide Turned, MotionModel.Step, UpdatedFrom;
    match op
    case DoInstallDefault(_) => InstallTurned(s, op);
    case DoRequest(request, discarding) =>
      if Refused(s, request, discarding) { RefusedTurned(s, op); } else { RequestTurned(s, op); }
    case DoClear(_) => ClearTurned(s, op);
    case DoExpireSelected => ExpireSelectedTurned(s, op);
    case DoExpire(_) => ExpireTurned(s, op);
    case DoFinishSelected(reason) => FinishSelectedTurned(s, op);
    case DoCancelControl(_) => ControlTurned(s, op);
    case DoRelease(_) => ControlTurned(s, op);
    case DoNotifyCombat => ControlTurned(s, op);
    case DoDie => DieTurned(s, op);
    case DoInhibit(_, _) => InhibitTurned(s, op);
    case DoUninhibit(_, _) => InhibitTurned(s, op);
  }

  lemma RefusedTurned(s: State, op: Op)
    requires Shaped(s) && op.DoRequest? && Refused(s, op.request, op.discarding)
    ensures Turned(s, Step(s, op), MoveOf(s, op), UpdatedFrom(s, op))
  {
    hide Turned;
    Unturned(s, op, s);
  }

  lemma FinishSelectedTurned(s: State, op: Op)
    requires Shaped(s) && op.DoFinishSelected?
    ensures Turned(s, Step(s, op), MoveOf(s, op), UpdatedFrom(s, op))
  {
    hide Turned, FinishSelected, SelectedLayer, UpdatedFrom;
    FinishTurned(s, op, op.reason);
  }
}
