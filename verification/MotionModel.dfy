/**
 What the movement arbiter holds and decides, as values: the seven layers, the selection, the claim set,
 and one function per public operation (src/motion/Arbiter.h, src/motion/Arbiter.cpp, src/motion/Mobility.cpp).
 */
module MotionModel {

  datatype Option<T> = None | Some(value: T)

  datatype Kind = Idle | Wander | Patrol | Follow | Chase | Point | Home | Distract | AssistDistract | Fear | Confused
    | Effect | Taxi

  datatype Layer = DefaultLayer | CombatLayer | ScriptedLayer | DistractLayer | ControlLayer | ForcedLayer | TaxiLayer

  datatype Policy = Supersede | Suspend | Override

  datatype FinishReason = Arrived | Cut | Blocked | Expired | Superseded | Overridden | Cleared | Cancelled
    | TargetLost | Died

  datatype TransactionKind = Normal | Clear | ClearAll | Death

  const LAYERS := 7
  const SCRIPTED := 2
  const DISTRACT := 3
  const CONTROL := 4
  const TAXI := 6

  function Index(layer: Layer): (i: nat)
    ensures i < LAYERS
  {
    match layer
    case DefaultLayer => 0
    case CombatLayer => 1
    case ScriptedLayer => 2
    case DistractLayer => 3
    case ControlLayer => 4
    case ForcedLayer => 5
    case TaxiLayer => 6
  }

  function LayerOf(kind: Kind): Layer {
    match kind
    case Chase => CombatLayer
    case Point => ScriptedLayer
    case Home => ScriptedLayer
    case Distract => DistractLayer
    case AssistDistract => DistractLayer
    case Fear => ControlLayer
    case Confused => ControlLayer
    case Effect => ForcedLayer
    case Taxi => TaxiLayer
    case _ => DefaultLayer
  }

  function PolicyOf(kind: Kind, resumeCombat: bool): Policy {
    match kind
    case Wander => Override
    case Patrol => Override
    case Home => Override
    case Taxi => Override
    case Point => if resumeCombat then Suspend else Override
    case Follow => Supersede
    case Chase => Supersede
    case _ => Suspend
  }

  predicate SelfExpiring(kind: Kind) {
    kind == Home || kind == Distract || kind == Effect
  }

  // ----- entries and events ------------------------------------------------------------------------------------

  datatype Held = Held(kind: Kind, id: nat, arrival: nat, claim: nat, started: bool)

  datatype MoveRequest = MoveRequest(kind: Kind, id: nat, resumeCombat: bool, claim: nat)

  datatype EventKind = Finished | Suspended | Resumed | DefaultSwapped

  datatype Event = Event(what: EventKind, who: Kind, id: nat, reason: FinishReason, claim: nat, arrival: nat)

  function About(h: Held, what: EventKind, reason: FinishReason): Event {
    Event(what, h.kind, h.id, reason, h.claim, h.arrival)
  }

  function ClaimRank(kind: Kind): int {
    if kind == Confused then 2 else 1
  }

  /** a is selected over b: higher rank, then newer. */
  predicate Outranks(a: Held, b: Held) {
    ClaimRank(a.kind) > ClaimRank(b.kind) || (ClaimRank(a.kind) == ClaimRank(b.kind) && a.arrival > b.arrival)
  }

  // ----- the block state ----------------------------------------------------------------------------------------

  datatype Inhibition = Rooted | Stunned | Dead | Possessed

  datatype Reason = ReasonRooted | ReasonStunned | ReasonDead | ReasonPossessed | ReasonFeared | ReasonConfused
    | ReasonDistracted | ReasonOnTaxi

  datatype Class = NoClass | Ordinary | DistractClass | ControlClass | TaxiClass

  datatype Decision = Decision(ticks: bool, mayMove: bool, mayTurn: bool, dominant: Option<Inhibition>)

  /** The table in force. Nothing is said of it, so whatever is proved of the arbiter holds for every table. */
  const DECIDE: (Class, set<Reason>) -> Decision

  /** The table the server uses: what an entry of a class may do under a set of reasons. */
  function Table(selected: Class, reasons: set<Reason>): Decision {
    if ReasonDead in reasons then Decision(false, false, false, Some(Dead))
    else if selected == TaxiClass then Decision(true, true, true, None)
    else if ReasonStunned in reasons then Decision(selected == DistractClass, false, false, Some(Stunned))
    else if ReasonPossessed in reasons && selected != ControlClass
      then Decision(selected == DistractClass, false, false, Some(Possessed))
    else if ReasonRooted in reasons then Decision(selected == DistractClass, false, true, Some(Rooted))
    else Decision(true, true, true, None)
  }

  /** The sources of each inhibition, in arrival order. */
  datatype Sources = Sources(rooted: seq<nat>, stunned: seq<nat>, dead: seq<nat>, possessed: seq<nat>) {
    function Of(what: Inhibition): seq<nat> {
      match what
      case Rooted => rooted
      case Stunned => stunned
      case Dead => dead
      case Possessed => possessed
    }

    function With(what: Inhibition, s: seq<nat>): Sources {
      match what
      case Rooted => this.(rooted := s)
      case Stunned => this.(stunned := s)
      case Dead => this.(dead := s)
      case Possessed => this.(possessed := s)
    }

    function Reasons(): set<Reason> {
      (if rooted != [] then {ReasonRooted} else {})
      + (if stunned != [] then {ReasonStunned} else {})
      + (if dead != [] then {ReasonDead} else {})
      + (if possessed != [] then {ReasonPossessed} else {})
    }
  }

  /** The sources left when x's first occurrence goes. */
  function Dropped(s: seq<nat>, x: nat): seq<nat> {
    if s == [] then [] else if s[0] == x then s[1..] else [s[0]] + Dropped(s[1..], x)
  }

  const SHIFT60 := 0x1000_0000_0000_0000
  const AURA := 0
  const SCRIPT := 5
  const DEATH_SOURCE := SHIFT60 + 1

  /** The sources outside a domain, which is the top nibble of a source. */
  function Outside(s: seq<nat>, domain: nat): seq<nat> {
    if s == [] then [] else (if s[0] / SHIFT60 == domain then [] else [s[0]]) + Outside(s[1..], domain)
  }

  function DropDomain(m: Sources, domain: nat): Sources {
    Sources(Outside(m.rooted, domain), Outside(m.stunned, domain), Outside(m.dead, domain),
      Outside(m.possessed, domain))
  }

  // ----- the model -----------------------------------------------------------------------------------------------

  /** Everything the arbiter holds, with every event it ever logged. */
  datatype State = State(
    dflt: Option<Held>, fallback: Option<Held>, combat: Option<Held>, commands: seq<Option<Held>>, claims: seq<Held>,
    last: nat, log: seq<Event>, blocked: nat, mobility: Sources)

  ghost predicate Shaped(s: State) {
    |s.commands| == LAYERS
  }

  /** The selected claim among the first n: the first that none outranks so far. */
  function BestClaim(claims: seq<Held>, n: nat): (i: nat)
    requires 0 < n <= |claims|
    ensures i < n
  {
    if n == 1 then 0
    else
      var b := BestClaim(claims, n - 1);
      if Outranks(claims[n - 1], claims[b]) then n - 1 else b
  }

  function SelectedLayer(s: State): Option<Layer>
    requires Shaped(s)
  {
    if s.commands[6].Some? then Some(TaxiLayer)
    else if s.commands[5].Some? then Some(ForcedLayer)
    else if s.claims != [] then Some(ControlLayer)
    else if s.commands[3].Some? then Some(DistractLayer)
    else if s.commands[2].Some? then Some(ScriptedLayer)
    else if s.combat.Some? then Some(CombatLayer)
    else if s.dflt.Some? then Some(DefaultLayer)
    else None
  }

  function Selected(s: State): Option<Held>
    requires Shaped(s)
  {
    match SelectedLayer(s)
    case None => None
    case Some(DefaultLayer) => s.dflt
    case Some(CombatLayer) => s.combat
    case Some(ControlLayer) => Some(s.claims[BestClaim(s.claims, |s.claims|)])
    case Some(layer) => s.commands[Index(layer)]
  }

  function ClassOf(layer: Option<Layer>): Class {
    match layer
    case None => NoClass
    case Some(DistractLayer) => DistractClass
    case Some(ControlLayer) => ControlClass
    case Some(TaxiLayer) => TaxiClass
    case Some(_) => Ordinary
  }

  predicate HasClaim(claims: seq<Held>, kind: Kind) {
    exists i :: 0 <= i < |claims| && claims[i].kind == kind
  }

  function Reasons(s: State): set<Reason>
    requires Shaped(s)
  {
    s.mobility.Reasons()
    + (if HasClaim(s.claims, Fear) then {ReasonFeared} else {})
    + (if HasClaim(s.claims, Confused) then {ReasonConfused} else {})
    + (if s.commands[DISTRACT].Some? then {ReasonDistracted} else {})
    + (if s.commands[TAXI].Some? then {ReasonOnTaxi} else {})
  }

  function Evaluate(s: State): Decision
    requires Shaped(s)
  {
    DECIDE(ClassOf(SelectedLayer(s)), Reasons(s))
  }

  // ----- the pieces of an operation --------------------------------------------------------------------------------

  function Logged(s: State, e: Event): State {
    s.(log := s.log + [e])
  }

  function FinishDefault(s: State, reason: FinishReason): (r: State)
    ensures r.commands == s.commands
  {
    if s.dflt.None? then s else Logged(s, About(s.dflt.value, Finished, reason)).(dflt := None)
  }

  function FinishFallback(s: State, reason: FinishReason): (r: State)
    ensures r.commands == s.commands
  {
    if s.fallback.None? then s else Logged(s, About(s.fallback.value, Finished, reason)).(fallback := None)
  }

  function FinishCombat(s: State, reason: FinishReason): (r: State)
    ensures r.commands == s.commands
  {
    if s.combat.None? then s else Logged(s, About(s.combat.value, Finished, reason)).(combat := None)
  }

  function FinishCommand(s: State, i: nat, reason: FinishReason): (r: State)
    requires Shaped(s) && i < LAYERS
    ensures Shaped(r)
    ensures r == s.(commands := s.commands[i := None], log := r.log)
    ensures r.dflt == s.dflt && r.fallback == s.fallback
  {
    if s.commands[i].None? then s else Logged(s,
        About(s.commands[i].value, Finished,
            reason)).(commands := s.commands[i := None])
  }

  function FinishClaim(s: State, i: nat, reason: FinishReason): State
    requires i < |s.claims|
  {
    Logged(s, About(s.claims[i], Finished, reason)).(claims := s.claims[..i] + s.claims[i + 1..])
  }

  /** The best claim among those of a kind (of any kind when None). */
  function BestOfKind(claims: seq<Held>, kind: Option<Kind>, n: nat): (b: Option<nat>)
    requires n <= |claims|
    ensures b.Some? ==> b.value < n && (kind.Some? ==> claims[b.value].kind == kind.value)
    ensures b.None? ==> forall i :: 0 <= i < n ==> kind.Some? && claims[i].kind != kind.value
  {
    if n == 0 then None
    else
      var b := BestOfKind(claims, kind, n - 1);
      if kind.Some? && claims[n - 1].kind != kind.value then b
      else if b.None? || Outranks(claims[n - 1], claims[b.value]) then Some(n - 1)
      else b
  }

  function FinishClaims(s: State, kind: Option<Kind>, reason: FinishReason): (r: State)
    ensures r == s.(claims := r.claims, log := r.log)
    decreases |s.claims|
  {
    match BestOfKind(s.claims, kind, |s.claims|)
    case None => s
    case Some(i) => FinishClaims(FinishClaim(s, i, reason), kind, reason)
  }

  /** Finishes the default and promotes the parked one, if any. */
  function PopDefault(s: State, reason: FinishReason): (r: State)
    ensures r.commands == s.commands
  {
    var t := FinishDefault(s, reason);
    t.(dflt := t.fallback, fallback := None)
  }

  function Swapped(s: State): (r: State)
    ensures r.commands == s.commands
  {
    if s.dflt.None? then s
    else Logged(s, Event(DefaultSwapped, s.dflt.value.kind, s.dflt.value.id, Superseded, 0, s.dflt.value.arrival))
  }

  function Stamped(s: State, kind: Kind, id: nat, claim: nat): Held {
    Held(kind, id, s.last + 1, claim, false)
  }

  /** Whether some entry in view has this seq. */
  predicate StillHeld(s: State, arrival: nat) {
    || (s.dflt.Some? && s.dflt.value.arrival == arrival)
    || (s.combat.Some? && s.combat.value.arrival == arrival)
    || (exists i :: 0 <= i < |s.commands| && s.commands[i].Some? && s.commands[i].value.arrival == arrival)
    || (exists i :: 0 <= i < |s.claims| && s.claims[i].arrival == arrival)
  }

  /** The selected entry marked as having run. */
  function Started(s: State): (r: State)
    requires Shaped(s)
    ensures Shaped(r)
  {
    match SelectedLayer(s)
    case None => s
    case Some(DefaultLayer) => s.(dflt := Some(s.dflt.value.(started := true)))
    case Some(CombatLayer) => s.(combat := Some(s.combat.value.(started := true)))
    case Some(ControlLayer) =>
      var i := BestClaim(s.claims, |s.claims|);
      s.(claims := s.claims[i := s.claims[i].(started := true)])
    case Some(layer) =>
      var i := Index(layer);
      s.(commands := s.commands[i := Some(s.commands[i].value.(started := true))])
  }

  /** One pause when the selected entry stops ticking, one resume when it ticks again. */
  function Reconciled(s: State): (r: State)
    requires Shaped(s)
    ensures Shaped(r)
  {
    var now := Selected(s);
    if now.Some? && !Evaluate(s).ticks then
      if s.blocked != now.value.arrival then Logged(s,
          About(now.value, Suspended,
              Blocked)).(blocked := now.value.arrival) else s
    else if s.blocked != 0 then
      (if now.Some? && now.value.arrival == s.blocked then Logged(s,
          About(now.value, Resumed,
              Blocked)) else s).(blocked := 0)
    else s
  }

  /** The events of a change of selection, before the block is looked at. */
  function Changed(s: State, before: Option<Held>): (r: State)
    requires Shaped(s)
    ensures Shaped(r)
  {
    var after := Selected(s);
    if after.Some? && (before.None? || before.value.arrival != after.value.arrival) then
      var t := if before.Some? && StillHeld(s, before.value.arrival) then Logged(s,
          About(before.value, Suspended, Cut)) else s;
      if after.value.started && after.value.arrival != s.last then Logged(t, About(after.value, Resumed, Arrived))
        else t
    else s
  }

  function Reselected(s: State, before: Option<Held>): (r: State)
    requires Shaped(s)
    ensures Shaped(r)
  {
    Reconciled(Started(Changed(s, before)))
  }

  // ----- the operations ---------------------------------------------------------------------------------------------

  function InstallDefault(s: State, kind: Kind): (r: State)
    requires Shaped(s)
    ensures Shaped(r)
  {
    var t := Swapped(s).(dflt := Some(Stamped(s, kind, 0, 0)), fallback := None, last := s.last + 1);
    Reselected(t, Selected(s))
  }

  /** A default request: Idle over something selected is a command; anything else is pushed onto the factory default. */
  function RequestDefault(s: State, held: Held, policy: Policy, empty: bool): (r: State)
    requires Shaped(s)
    ensures Shaped(r)
  {
    if held.kind == Idle && !empty then
      var scripted := s.commands[SCRIPTED];
      if scripted.Some? && scripted.value.kind == Idle then s
      else
        var t := FinishCommand(s, SCRIPTED, Superseded);
        t.(commands := t.commands[SCRIPTED := Some(held)])
    else
      var parked := if s.dflt.Some? && s.fallback.None? then s.dflt else s.fallback;
      var t := Swapped(s).(fallback := parked, dflt := Some(held));
      if policy == Override then
        FinishCommand(FinishCommand(FinishCombat(t, Overridden), SCRIPTED, Overridden), DISTRACT, Overridden)
      else t
  }

  /** Commands below i and above the combat layer, but for the claims, finished as overridden. */
  function OverrideBelow(s: State, i: nat, lower: nat): (r: State)
    requires Shaped(s) && i < LAYERS
    ensures Shaped(r)
    ensures r.dflt == s.dflt && r.fallback == s.fallback
    decreases i - lower
  {
    if lower >= i then s
    else OverrideBelow(if lower == CONTROL then s else FinishCommand(s, lower, Overridden), i, lower + 1)
  }

  function RequestCommand(s: State, held: Held, i: nat, policy: Policy): (r: State)
    requires Shaped(s) && i < LAYERS
    ensures Shaped(r)
    ensures r.dflt == s.dflt && r.fallback == s.fallback
  {
    var t := FinishCommand(s, i, Superseded);
    var u := if policy == Override then FinishCombat(OverrideBelow(t, i, SCRIPTED), Overridden) else t;
    u.(commands := u.commands[i := Some(held)])
  }

  function ClaimIndex(claims: seq<Held>, claim: nat): (i: nat)
    ensures i <= |claims| && (i < |claims| ==> claims[i].claim == claim)
    ensures forall k :: 0 <= k < i ==> claims[k].claim != claim
  {
    if claims == [] then 0 else if claims[0].claim == claim then 0 else 1 + ClaimIndex(claims[1..], claim)
  }

  /** A claim is added, or the one of that identity is brought up to date where it stands. */
  function RequestClaim(s: State, held: Held): State {
    var i := ClaimIndex(s.claims, held.claim);
    if i < |s.claims| then s.(claims := s.claims[i := s.claims[i].(kind := held.kind, id := held.id,
        arrival := held.arrival)])
    else s.(claims := s.claims + [held])
  }

  /** A chase on a chasing unit updates it. */
  function RequestCombat(s: State, held: Held): State {
    if s.combat.Some? then s.(combat := Some(s.combat.value.(id := held.id, arrival := held.arrival)))
    else s.(combat := Some(held))
  }

  /** The self-expiring selection goes when another layer is asked for. */
  function SelfExpired(s: State, layer: Layer): (r: State)
    requires Shaped(s)
    ensures Shaped(r)
    ensures r.dflt == s.dflt && r.fallback == s.fallback
  {
    var before := Selected(s);
    if before.Some? && SelfExpiring(before.value.kind) && LayerOf(before.value.kind) != layer then
      FinishCommand(s, Index(LayerOf(before.value.kind)), Cancelled)
    else s
  }

  /**
   Whether a request is turned away without a trace: inside a discarding transaction, a claim without identity, or one
   under a flight.
   */
  predicate Refused(s: State, request: MoveRequest, discarding: bool)
    requires Shaped(s)
  {
    discarding || (LayerOf(request.kind) == ControlLayer && (request.claim == 0 || s.commands[TAXI].Some?))
  }

  /** What a request puts in place, before the selection is compared. */
  function Placed(t: State, request: MoveRequest, held: Held): (r: State)
    requires Shaped(t)
    ensures Shaped(r)
  {
    var policy := PolicyOf(request.kind, request.resumeCombat);
    match LayerOf(request.kind)
    case DefaultLayer => RequestDefault(t, held, policy, Selected(t).None?)
    case CombatLayer => RequestCombat(t, held)
    case ControlLayer => RequestClaim(t, held)
    case _ => RequestCommand(t, held, Index(LayerOf(request.kind)), policy)
  }

  function Request(s: State, request: MoveRequest, discarding: bool): (r: State)
    requires Shaped(s)
    ensures Shaped(r)
  {
    if Refused(s, request, discarding) then s
    else
      var layer := LayerOf(request.kind);
      var held := Stamped(s, request.kind, request.id, if layer == ControlLayer then request.claim else 0);
      var t := SelfExpired(s, layer).(last := s.last + 1);
      Reselected(Placed(t, request, held), Selected(s))
  }

  /** Every command finished, in layer order (the slot of the claims is never used). */
  function FinishCommands(s: State, from: nat, reason: FinishReason): (r: State)
    requires Shaped(s)
    ensures Shaped(r)
    ensures r.dflt == s.dflt && r.fallback == s.fallback
    decreases LAYERS - from
  {
    if from >= LAYERS then s else FinishCommands(FinishCommand(s, from, reason), from + 1, reason)
  }

  function ClearOp(s: State, all: bool): (r: State)
    requires Shaped(s)
    ensures Shaped(r)
  {
    var t := FinishCombat(FinishCommands(s, SCRIPTED, Cleared), Cleared);
    var u :=
      if all then FinishFallback(FinishDefault(FinishClaims(t, None, Cleared), Cleared), Cleared)
      else if t.fallback.Some? then PopDefault(t, Cleared)
      else t;
    Reselected(u, Selected(s))
  }

  function FinishSelected(s: State, reason: FinishReason): (r: State)
    requires Shaped(s)
    ensures Shaped(r)
  {
    match SelectedLayer(s)
    case None => s
    case Some(layer) =>
      var t := match layer
        case DefaultLayer => PopDefault(s, reason)
        case CombatLayer => FinishCombat(s, reason)
        case ControlLayer => FinishClaim(s, BestClaim(s.claims, |s.claims|), reason)
        case _ => FinishCommand(s, Index(layer), reason);
      Reselected(t, Selected(s))
  }

  function ExpireSelected(s: State): (r: State)
    requires Shaped(s)
    ensures Shaped(r)
  {
    match SelectedLayer(s)
    case None => s
    case Some(DefaultLayer) =>
      if s.fallback.None? then s
      else Reselected(PopDefault(s, if s.dflt.value.kind == Follow then TargetLost else Expired), Selected(s))
    case Some(CombatLayer) => FinishSelected(s, TargetLost)
    case Some(ControlLayer) => s
    case Some(_) => FinishSelected(s, Expired)
  }

  /** The newest claim of a kind. */
  function NewestOfKind(claims: seq<Held>, kind: Kind, n: nat): (b: Option<nat>)
    requires n <= |claims|
    ensures b.Some? ==> b.value < n && claims[b.value].kind == kind
  {
    if n == 0 then None
    else
      var b := NewestOfKind(claims, kind, n - 1);
      if claims[n - 1].kind == kind && (b.None? || claims[n - 1].arrival > claims[b.value].arrival) then Some(n - 1)
        else b
  }

  /** The highest command of a kind, at or below layer n - 1. */
  function HighestOfKind(commands: seq<Option<Held>>, kind: Kind, n: nat): (b: Option<nat>)
    requires n <= |commands|
    ensures b.Some? ==> SCRIPTED <= b.value < n && commands[b.value].Some? && commands[b.value].value.kind == kind
    ensures b.None? ==> forall i :: SCRIPTED <= i < n ==> !(commands[i].Some? && commands[i].value.kind == kind)
    decreases n
  {
    if n <= SCRIPTED then None
    else if commands[n - 1].Some? && commands[n - 1].value.kind == kind then Some(n - 1)
    else HighestOfKind(commands, kind, n - 1)
  }

  function Expire(s: State, kind: Kind): (r: State)
    requires Shaped(s)
    ensures Shaped(r)
  {
    if LayerOf(kind) == ControlLayer then
      match NewestOfKind(s.claims, kind, |s.claims|)
      case None => s
      case Some(i) => Reselected(FinishClaim(s, i, Expired), Selected(s))
    else
      match HighestOfKind(s.commands, kind, LAYERS)
      case Some(i) => Reselected(FinishCommand(s, i, Expired), Selected(s))
      case None =>
        if s.combat.Some? && s.combat.value.kind == kind then Reselected(FinishCombat(s, TargetLost), Selected(s))
        else if s.dflt.Some? && s.dflt.value.kind == kind && s.fallback.Some? then
          Reselected(PopDefault(s, if kind == Follow then TargetLost else Expired), Selected(s))
        else s
  }

  function CancelControl(s: State, kind: Kind): (r: State)
    requires Shaped(s)
    ensures Shaped(r)
  {
    Reselected(FinishClaims(s, Some(kind), Cancelled), Selected(s))
  }

  function Release(s: State, claim: nat): (r: State)
    requires Shaped(s)
    ensures Shaped(r)
  {
    var i := ClaimIndex(s.claims, claim);
    if i < |s.claims| then Reselected(FinishClaim(s, i, Cancelled), Selected(s)) else s
  }

  function NotifyCombat(s: State): (r: State)
    requires Shaped(s)
    ensures Shaped(r)
  {
    Reselected(FinishCommand(s, DISTRACT, Cancelled), Selected(s))
  }

  /** Death finishes everything; the sources of auras and scripts go, and the unit is inhibited as dead. */
  function Die(s: State): (r: State)
    requires Shaped(s)
    ensures Shaped(r)
  {
    var t := FinishCombat(FinishFallback(FinishDefault(s, Died), Died), Died);
    var u := FinishCommand(FinishCommand(t, 2, Died), 3, Died);
    var v := FinishCommand(FinishCommand(FinishClaims(u, None, Died), 5, Died), 6, Died);
    var m := DropDomain(DropDomain(s.mobility, AURA), SCRIPT);
    v.(mobility := if DEATH_SOURCE in m.dead then m else m.(dead := m.dead + [DEATH_SOURCE]), blocked := 0)
  }

  function Inhibit(s: State, what: Inhibition, source: nat): (r: State)
    requires Shaped(s)
    ensures Shaped(r)
  {
    if source in s.mobility.Of(what) then s
    else
      var t := s.(mobility := s.mobility.With(what, s.mobility.Of(what) + [source]));
      if s.mobility.Of(what) == [] then Reconciled(t) else t
  }

  function Uninhibit(s: State, what: Inhibition, source: nat): (r: State)
    requires Shaped(s)
    ensures Shaped(r)
  {
    if source !in s.mobility.Of(what) then s
    else
      var t := s.(mobility := s.mobility.With(what, Dropped(s.mobility.Of(what), source)));
      if t.mobility.Of(what) == [] then Reconciled(t) else t
  }

  // ----- runs --------------------------------------------------------------------------------------------------------

  /** One public operation; a request says whether it is made inside a discarding transaction. */
  datatype Op =
    | DoInstallDefault(kind: Kind)
    | DoRequest(request: MoveRequest, discarding: bool)
    | DoClear(all: bool)
    | DoExpireSelected
    | DoExpire(expired: Kind)
    | DoFinishSelected(reason: FinishReason)
    | DoCancelControl(cancelled: Kind)
    | DoRelease(claim: nat)
    | DoNotifyCombat
    | DoDie
    | DoInhibit(what: Inhibition, source: nat)
    | DoUninhibit(whatEnds: Inhibition, sourceEnds: nat)

  function Step(s: State, op: Op): (r: State)
    requires Shaped(s)
    ensures Shaped(r)
  {
    match op
    case DoInstallDefault(kind) => InstallDefault(s, kind)
    case DoRequest(request, discarding) => Request(s, request, discarding)
    case DoClear(all) => ClearOp(s, all)
    case DoExpireSelected => ExpireSelected(s)
    case DoExpire(kind) => Expire(s, kind)
    case DoFinishSelected(reason) => FinishSelected(s, reason)
    case DoCancelControl(kind) => CancelControl(s, kind)
    case DoRelease(claim) => Release(s, claim)
    case DoNotifyCombat => NotifyCombat(s)
    case DoDie => Die(s)
    case DoInhibit(what, source) => Inhibit(s, what, source)
    case DoUninhibit(what, source) => Uninhibit(s, what, source)
  }

  /** The empty arbiter. */
  function Fresh(): (s: State)
    ensures Shaped(s)
  {
    State(None, None, None, seq(LAYERS, _ => None), [], 0, [], 0, Sources([], [], [], []))
  }

  function Run(ops: seq<Op>): (s: State)
    ensures Shaped(s)
  {
    if ops == [] then Fresh() else Step(Run(ops[..|ops| - 1]), ops[|ops| - 1])
  }
}
