/**
 The ledger of the movement arbiter: the sequence numbers handed out balance against the places entries are
 held in and the events logged. Every operation keeps the balance; that each label is also a true account of
 what happened to its number over the run is proved in MotionDepartures.
 */
module MotionLedger {
  import opened MotionModel

  datatype Fate = InDefault | InFallback | InCombat | InCommand(i: nat) | InClaims | Gone | SwappedOut
    | Updated(to: nat) | NeverHeld

  type Fates = map<nat, Fate>

  /** A slot and the fate of its place belong to each other. */
  ghost predicate SlotFate(slot: Option<Held>, fate: Fates, place: Fate) {
    && (slot.Some? ==> slot.value.arrival in fate && fate[slot.value.arrival] == place)
    && (forall k {:trigger fate[k]} :: k in fate && fate[k] == place ==> slot.Some? && slot.value.arrival == k)
  }

  ghost predicate CommandFates(commands: seq<Option<Held>>, fate: Fates) {
    && |commands| == LAYERS && commands[0].None? && commands[1].None? && commands[CONTROL].None?
    && (forall i {:trigger commands[i]} :: 0 <= i < LAYERS && commands[i].Some? ==>
         commands[i].value.arrival in fate && fate[commands[i].value.arrival] == InCommand(i))
    && (forall k {:trigger fate[k]} :: k in fate && fate[k].InCommand? ==>
         fate[k].i < LAYERS && commands[fate[k].i].Some? && commands[fate[k].i].value.arrival == k)
  }

  ghost predicate ClaimFates(claims: seq<Held>, fate: Fates) {
    && (forall i {:trigger claims[i]} :: 0 <= i < |claims| ==>
         claims[i].arrival in fate && fate[claims[i].arrival] == InClaims
         && claims[i].claim > 0 && LayerOf(claims[i].kind) == ControlLayer)
    && (forall k {:trigger fate[k]} :: k in fate && fate[k] == InClaims ==> exists i ::
         0 <= i < |claims| && claims[i].arrival == k)
    && (forall i, j {:trigger claims[i], claims[j]} :: 0 <= i < j < |claims| ==>
         claims[i].arrival != claims[j].arrival && claims[i].claim != claims[j].claim)
  }

  /** Exactly the numbers that are gone have a Finished event, and each has one. */
  ghost predicate LogFates(log: seq<Event>, fate: Fates) {
    && (forall i {:trigger log[i]} :: 0 <= i < |log| && log[i].what == Finished ==>
         log[i].arrival in fate && fate[log[i].arrival] == Gone)
    && (forall i, j {:trigger log[i], log[j]} ::
         0 <= i < j < |log| && log[i].what == Finished && log[j].what == Finished ==>
         log[i].arrival != log[j].arrival)
    && (forall k {:trigger fate[k]} :: k in fate && fate[k] == Gone ==> exists i ::
         0 <= i < |log| && log[i].what == Finished && log[i].arrival == k)
    && (forall k {:trigger fate[k]} :: k in fate && fate[k] == SwappedOut ==>
         exists i :: 0 <= i < |log| && log[i].what == DefaultSwapped && log[i].arrival == k)
  }

  /** A parked default has been logged as swapped. */
  ghost predicate ParkedLogged(s: State) {
    s.fallback.Some? ==> exists i ::
      0 <= i < |s.log| && s.log[i].what == DefaultSwapped && s.log[i].arrival == s.fallback.value.arrival
  }

  /** The numbers handed out are those with a fate, and an update is to a newer one. */
  ghost predicate Numbered(last: nat, fate: Fates) {
    && (forall k :: k in fate <==> 1 <= k <= last)
    && (forall k {:trigger fate[k]} :: k in fate && fate[k].Updated? ==> k < fate[k].to <= last)
  }

  ghost predicate Ledger(s: State, fate: Fates) {
    && Numbered(s.last, fate)
    && SlotFate(s.dflt, fate, InDefault) && SlotFate(s.fallback, fate, InFallback) && SlotFate(s.combat, fate, InCombat)
    && CommandFates(s.commands, fate) && ClaimFates(s.claims, fate)
    && LogFates(s.log, fate) && ParkedLogged(s)
  }

  /** Numbers that nothing has held yet stay so. */
  ghost predicate NewKept(fate: Fates, fate': Fates) {
    forall k {:trigger fate'[k]} {:trigger fate[k]} :: k in fate && fate[k] == NeverHeld ==>
      k in fate' && fate'[k] == NeverHeld
  }

  // ----- the pieces keep the ledger -----------------------------------------------------------------------------

  lemma GoneLogged(log: seq<Event>, fate: Fates, e: Event)
    requires LogFates(log, fate) && e.what == Finished && e.arrival in fate
    requires fate[e.arrival] != Gone
    ensures LogFates(log + [e], fate[e.arrival := Gone])
  {
    var more, fate' := log + [e], fate[e.arrival := Gone];
    forall k {:trigger fate'[k]} | k in fate' && fate'[k] == Gone
      ensures exists i :: 0 <= i < |more| && more[i].what == Finished && more[i].arrival == k
    {
      if k == e.arrival {
        assert more[|log|] == e;
      } else {
        assert fate[k] == Gone;
        var i :| 0 <= i < |log| && log[i].what == Finished && log[i].arrival == k;
        assert more[i] == log[i];
      }
    }
    forall k {:trigger fate'[k]} | k in fate' && fate'[k] == SwappedOut
      ensures exists i :: 0 <= i < |more| && more[i].what == DefaultSwapped && more[i].arrival == k
    {
      assert fate[k] == SwappedOut;
      var i :| 0 <= i < |log| && log[i].what == DefaultSwapped && log[i].arrival == k;
      assert more[i] == log[i];
    }
  }

  lemma ParkedStays(s: State, t: State)
    requires ParkedLogged(s) && s.log <= t.log && (t.fallback == s.fallback || t.fallback.None?)
    ensures ParkedLogged(t)
  {
    if t.fallback.Some? {
      var i :| 0 <= i < |s.log| && s.log[i].what == DefaultSwapped && s.log[i].arrival == s.fallback.value.arrival;
      assert t.log[i] == s.log[i];
    }
  }

  lemma SlotElsewhere(slot: Option<Held>, fate: Fates, place: Fate, k: nat, f: Fate)
    requires SlotFate(slot, fate, place) && k in fate && fate[k] != place && f != place
    ensures SlotFate(slot, fate[k := f], place)
  {
  }

  lemma SlotEmptied(slot: Option<Held>, fate: Fates, place: Fate, f: Fate)
    requires SlotFate(slot, fate, place) && slot.Some? && f != place
    ensures SlotFate(None, fate[slot.value.arrival := f], place)
  {
  }

  lemma CommandsElsewhere(commands: seq<Option<Held>>, fate: Fates, k: nat, f: Fate)
    requires CommandFates(commands, fate) && k in fate && !fate[k].InCommand? && !f.InCommand?
    ensures CommandFates(commands, fate[k := f])
  {
  }

  lemma ClaimsElsewhere(claims: seq<Held>, fate: Fates, k: nat, f: Fate)
    requires ClaimFates(claims, fate) && k in fate && fate[k] != InClaims && f != InClaims
    ensures ClaimFates(claims, fate[k := f])
  {
    var fate' := fate[k := f];
    forall m {:trigger fate'[m]} | m in fate' && fate'[m] == InClaims
      ensures exists i :: 0 <= i < |claims| && claims[i].arrival == m
    {
      assert fate[m] == InClaims;
    }
  }

  lemma NumbersKept(last: nat, fate: Fates, k: nat, f: Fate)
    requires Numbered(last, fate) && k in fate && (f.Updated? ==> k < f.to <= last)
    ensures Numbered(last, fate[k := f])
  {
  }

  lemma DefaultFinished(s: State, fate: Fates, reason: FinishReason) returns (fate': Fates)
    requires Ledger(s, fate)
    ensures Ledger(FinishDefault(s, reason), fate') && NewKept(fate, fate')
  {
    hide SlotFate, CommandFates, ClaimFates, LogFates, Numbered, ParkedLogged;
    fate' := fate;
    if s.dflt.Some? {
      var e := About(s.dflt.value, Finished, reason);
      var k := e.arrival;
      fate' := fate[k := Gone];
      SlotIs(s.dflt, fate, InDefault);
      SlotEmptied(s.dflt, fate, InDefault, Gone);
      SlotElsewhere(s.fallback, fate, InFallback, k, Gone);
      SlotElsewhere(s.combat, fate, InCombat, k, Gone);
      CommandsElsewhere(s.commands, fate, k, Gone);
      ClaimsElsewhere(s.claims, fate, k, Gone);
      GoneLogged(s.log, fate, e);
      NumbersKept(s.last, fate, k, Gone);
      ParkedStays(s, FinishDefault(s, reason));
    }
  }

  lemma SlotIs(slot: Option<Held>, fate: Fates, place: Fate)
    requires SlotFate(slot, fate, place) && slot.Some?
    ensures slot.value.arrival in fate && fate[slot.value.arrival] == place
  {
  }

  lemma FallbackFinished(s: State, fate: Fates, reason: FinishReason) returns (fate': Fates)
    requires Ledger(s, fate)
    ensures Ledger(FinishFallback(s, reason), fate') && NewKept(fate, fate')
  {
    hide SlotFate, CommandFates, ClaimFates, LogFates, Numbered, ParkedLogged;
    fate' := fate;
    if s.fallback.Some? {
      var e := About(s.fallback.value, Finished, reason);
      var k := e.arrival;
      fate' := fate[k := Gone];
      SlotIs(s.fallback, fate, InFallback);
      SlotEmptied(s.fallback, fate, InFallback, Gone);
      SlotElsewhere(s.dflt, fate, InDefault, k, Gone);
      SlotElsewhere(s.combat, fate, InCombat, k, Gone);
      CommandsElsewhere(s.commands, fate, k, Gone);
      ClaimsElsewhere(s.claims, fate, k, Gone);
      GoneLogged(s.log, fate, e);
      NumbersKept(s.last, fate, k, Gone);
      ParkedStays(s, FinishFallback(s, reason));
    }
  }

  lemma CombatFinished(s: State, fate: Fates, reason: FinishReason) returns (fate': Fates)
    requires Ledger(s, fate)
    ensures Ledger(FinishCombat(s, reason), fate') && NewKept(fate, fate')
  {
    hide SlotFate, CommandFates, ClaimFates, LogFates, Numbered, ParkedLogged;
    fate' := fate;
    if s.combat.Some? {
      var e := About(s.combat.value, Finished, reason);
      var k := e.arrival;
      fate' := fate[k := Gone];
      SlotIs(s.combat, fate, InCombat);
      SlotEmptied(s.combat, fate, InCombat, Gone);
      SlotElsewhere(s.dflt, fate, InDefault, k, Gone);
      SlotElsewhere(s.fallback, fate, InFallback, k, Gone);
      CommandsElsewhere(s.commands, fate, k, Gone);
      ClaimsElsewhere(s.claims, fate, k, Gone);
      GoneLogged(s.log, fate, e);
      NumbersKept(s.last, fate, k, Gone);
      ParkedStays(s, FinishCombat(s, reason));
    }
  }

  lemma CommandEmptied(commands: seq<Option<Held>>, fate: Fates, i: nat)
    requires CommandFates(commands, fate) && i < LAYERS && commands[i].Some?
    ensures commands[i].value.arrival in fate && fate[commands[i].value.arrival] == InCommand(i)
    ensures CommandFates(commands[i := None], fate[commands[i].value.arrival := Gone])
  {
  }

  lemma CommandsShaped(s: State, fate: Fates)
    requires CommandFates(s.commands, fate)
    ensures Shaped(s)
  {
  }

  lemma CommandFinished(s: State, fate: Fates, i: nat, reason: FinishReason) returns (fate': Fates)
    requires Ledger(s, fate) && i < LAYERS
    ensures Shaped(s) && Ledger(FinishCommand(s, i, reason), fate') && NewKept(fate, fate')
  {
    hide SlotFate, CommandFates, ClaimFates, LogFates, Numbered, ParkedLogged;
    CommandsShaped(s, fate);
    fate' := fate;
    if s.commands[i].Some? {
      var e := About(s.commands[i].value, Finished, reason);
      var k := e.arrival;
      fate' := fate[k := Gone];
      CommandEmptied(s.commands, fate, i);
      SlotElsewhere(s.dflt, fate, InDefault, k, Gone);
      SlotElsewhere(s.fallback, fate, InFallback, k, Gone);
      SlotElsewhere(s.combat, fate, InCombat, k, Gone);
      ClaimsElsewhere(s.claims, fate, k, Gone);
      GoneLogged(s.log, fate, e);
      NumbersKept(s.last, fate, k, Gone);
      ParkedStays(s, FinishCommand(s, i, reason));
    }
  }

  lemma ErasedAt(claims: seq<Held>, i: nat, j: nat)
    requires i < |claims| && j < |claims| - 1
    ensures (claims[..i] + claims[i + 1..])[j] == claims[if j < i then j else j + 1]
  {
  }

  lemma ErasedFind(claims: seq<Held>, i: nat, k: nat)
    requires i < |claims| && claims[i].arrival != k && exists j :: 0 <= j < |claims| && claims[j].arrival == k
    ensures var left := claims[..i] + claims[i + 1..]; exists j :: 0 <= j < |left| && left[j].arrival == k
  {
    var left := claims[..i] + claims[i + 1..];
    var j :| 0 <= j < |claims| && claims[j].arrival == k;
    ErasedAt(claims, i, if j < i then j else j - 1);
    assert left[if j < i then j else j - 1] == claims[j];
  }

  lemma ClaimErased(claims: seq<Held>, fate: Fates, i: nat)
    requires ClaimFates(claims, fate) && i < |claims|
    ensures claims[i].arrival in fate && fate[claims[i].arrival] == InClaims
    ensures ClaimFates(claims[..i] + claims[i + 1..], fate[claims[i].arrival := Gone])
  {
    var left, fate' := claims[..i] + claims[i + 1..], fate[claims[i].arrival := Gone];
    forall j {:trigger left[j]} | 0 <= j < |left|
      ensures left[j] == claims[if j < i then j else j + 1] && left[j].arrival != claims[i].arrival
    {
      ErasedAt(claims, i, j);
    }
    forall k {:trigger fate'[k]} | k in fate' && fate'[k] == InClaims
      ensures exists j :: 0 <= j < |left| && left[j].arrival == k
    {
      assert fate[k] == InClaims;
      ErasedFind(claims, i, k);
    }
    ClaimsLeft(claims, fate, i, left);
  }

  lemma ClaimsLeft(claims: seq<Held>, fate: Fates, i: nat, left: seq<Held>)
    requires ClaimFates(claims, fate) && i < |claims| && |left| == |claims| - 1
    requires forall j {:trigger left[j]} :: 0 <= j < |left| ==> left[j] == claims[if j < i then j else j + 1]
    ensures forall j {:trigger left[j]} :: 0 <= j < |left| ==>
      left[j].arrival in fate && fate[left[j].arrival] == InClaims && left[j].claim > 0
        && LayerOf(left[j].kind) == ControlLayer
    ensures forall j, k {:trigger left[j], left[k]} :: 0 <= j < k < |left| ==>
      left[j].arrival != left[k].arrival && left[j].claim != left[k].claim
  {
    hide LayerOf;
  }

  lemma ClaimFinished(s: State, fate: Fates, i: nat, reason: FinishReason) returns (fate': Fates)
    requires Ledger(s, fate) && i < |s.claims|
    ensures Ledger(FinishClaim(s, i, reason), fate') && NewKept(fate, fate')
  {
    hide SlotFate, CommandFates, ClaimFates, LogFates, Numbered, ParkedLogged;
    var e := About(s.claims[i], Finished, reason);
    var k := e.arrival;
    fate' := fate[k := Gone];
    ClaimErased(s.claims, fate, i);
    SlotElsewhere(s.dflt, fate, InDefault, k, Gone);
    SlotElsewhere(s.fallback, fate, InFallback, k, Gone);
    SlotElsewhere(s.combat, fate, InCombat, k, Gone);
    CommandsElsewhere(s.commands, fate, k, Gone);
    GoneLogged(s.log, fate, e);
    NumbersKept(s.last, fate, k, Gone);
    ParkedStays(s, FinishClaim(s, i, reason));
  }

  lemma {:induction false} ClaimsFinished(s: State, fate: Fates, kind: Option<Kind>, reason: FinishReason)
    returns (fate': Fates)
    requires Ledger(s, fate)
    ensures Ledger(FinishClaims(s, kind, reason), fate') && NewKept(fate, fate')
    decreases |s.claims|
  {
    hide Ledger;
    var b := BestOfKind(s.claims, kind, |s.claims|);
    if b.None? {
      fate' := fate;
    } else {
      var f := ClaimFinished(s, fate, b.value, reason);
      fate' := ClaimsFinished(FinishClaim(s, b.value, reason), f, kind, reason);
    }
  }

  lemma {:induction false} CommandsFinished(s: State, fate: Fates, from: nat, reason: FinishReason)
    returns (fate': Fates)
    requires Shaped(s) && Ledger(s, fate)
    ensures Ledger(FinishCommands(s, from, reason), fate') && NewKept(fate, fate')
    decreases LAYERS - from
  {
    hide Ledger;
    if from >= LAYERS {
      fate' := fate;
    } else {
      var f := CommandFinished(s, fate, from, reason);
      fate' := CommandsFinished(FinishCommand(s, from, reason), f, from + 1, reason);
    }
  }

  lemma {:induction false} BelowOverridden(s: State, fate: Fates, i: nat, lower: nat) returns (fate': Fates)
    requires Shaped(s) && i < LAYERS && Ledger(s, fate)
    ensures Ledger(OverrideBelow(s, i, lower), fate') && NewKept(fate, fate')
    decreases i - lower
  {
    hide Ledger;
    if lower >= i {
      fate' := fate;
    } else if lower == CONTROL {
      fate' := BelowOverridden(s, fate, i, lower + 1);
    } else {
      var f := CommandFinished(s, fate, lower, Overridden);
      fate' := BelowOverridden(FinishCommand(s, lower, Overridden), f, i, lower + 1);
    }
  }

  // ----- events that finish nothing, and numbers --------------------------------------------------------------------

  lemma OtherLogged(log: seq<Event>, fate: Fates, e: Event)
    requires LogFates(log, fate) && e.what != Finished
    ensures LogFates(log + [e], fate)
  {
    var more := log + [e];
    forall k {:trigger fate[k]} | k in fate && fate[k] == Gone
      ensures exists i :: 0 <= i < |more| && more[i].what == Finished && more[i].arrival == k
    {
      var i :| 0 <= i < |log| && log[i].what == Finished && log[i].arrival == k;
      assert more[i] == log[i];
    }
    forall k {:trigger fate[k]} | k in fate && fate[k] == SwappedOut
      ensures exists i :: 0 <= i < |more| && more[i].what == DefaultSwapped && more[i].arrival == k
    {
      var i :| 0 <= i < |log| && log[i].what == DefaultSwapped && log[i].arrival == k;
      assert more[i] == log[i];
    }
  }

  lemma LogKept(s: State, fate: Fates, e: Event)
    requires Ledger(s, fate) && e.what != Finished
    ensures Ledger(Logged(s, e), fate)
  {
    hide SlotFate, CommandFates, ClaimFates, LogFates, Numbered, ParkedLogged;
    OtherLogged(s.log, fate, e);
    ParkedStays(s, Logged(s, e));
  }

  /** A fate that is neither of a place nor of the log changes. */
  lemma LogElsewhere(log: seq<Event>, fate: Fates, k: nat, f: Fate)
    requires LogFates(log, fate) && k in fate && fate[k] != Gone && f != Gone
    requires f == SwappedOut ==> exists i :: 0 <= i < |log| && log[i].what == DefaultSwapped && log[i].arrival == k
    ensures LogFates(log, fate[k := f])
  {
    var fate' := fate[k := f];
    forall m {:trigger fate'[m]} | m in fate' && fate'[m] == Gone
      ensures exists i :: 0 <= i < |log| && log[i].what == Finished && log[i].arrival == m
    {
      assert fate[m] == Gone;
    }
    forall m {:trigger fate'[m]} | m in fate' && fate'[m] == SwappedOut
      ensures exists i :: 0 <= i < |log| && log[i].what == DefaultSwapped && log[i].arrival == m
    {
      if m != k { assert fate[m] == SwappedOut; }
    }
  }

  /** The next number is handed out; nothing holds it yet. */
  lemma NumberTaken(s: State, fate: Fates)
    requires Ledger(s, fate)
    ensures s.last + 1 !in fate && Ledger(s.(last := s.last + 1), fate[s.last + 1 := NeverHeld])
  {
    hide SlotFate, CommandFates, ClaimFates, LogFates, ParkedLogged;
    var k := s.last + 1;
    SlotApart(s.dflt, fate, InDefault, k);
    SlotApart(s.fallback, fate, InFallback, k);
    SlotApart(s.combat, fate, InCombat, k);
    CommandsApart(s.commands, fate, k);
    ClaimsApart(s.claims, fate, k);
    LogApart(s.log, fate, k);
    ParkedStays(s, s.(last := k));
  }

  lemma SlotApart(slot: Option<Held>, fate: Fates, place: Fate, k: nat)
    requires SlotFate(slot, fate, place) && k !in fate && place != NeverHeld
    ensures SlotFate(slot, fate[k := NeverHeld], place)
  {
  }

  lemma CommandsApart(commands: seq<Option<Held>>, fate: Fates, k: nat)
    requires CommandFates(commands, fate) && k !in fate
    ensures CommandFates(commands, fate[k := NeverHeld])
  {
  }

  lemma ClaimsApart(claims: seq<Held>, fate: Fates, k: nat)
    requires ClaimFates(claims, fate) && k !in fate
    ensures ClaimFates(claims, fate[k := NeverHeld])
  {
    var fate' := fate[k := NeverHeld];
    forall m {:trigger fate'[m]} | m in fate' && fate'[m] == InClaims
      ensures exists i :: 0 <= i < |claims| && claims[i].arrival == m
    {
      assert fate[m] == InClaims;
    }
  }

  lemma LogApart(log: seq<Event>, fate: Fates, k: nat)
    requires LogFates(log, fate) && k !in fate
    ensures LogFates(log, fate[k := NeverHeld])
  {
    var fate' := fate[k := NeverHeld];
    forall m {:trigger fate'[m]} | m in fate' && fate'[m] == Gone
      ensures exists i :: 0 <= i < |log| && log[i].what == Finished && log[i].arrival == m
    {
      assert fate[m] == Gone;
    }
    forall m {:trigger fate'[m]} | m in fate' && fate'[m] == SwappedOut
      ensures exists i :: 0 <= i < |log| && log[i].what == DefaultSwapped && log[i].arrival == m
    {
      assert fate[m] == SwappedOut;
    }
  }

  lemma SlotFilled(fate: Fates, place: Fate, h: Held, f: Fate)
    requires SlotFate(None, fate, place) && h.arrival in fate && f == place
    ensures SlotFate(Some(h), fate[h.arrival := f], place)
  {
  }

  lemma DefaultPut(s: State, fate: Fates, h: Held)
    requires Ledger(s, fate) && s.dflt.None? && h.arrival in fate && fate[h.arrival] == NeverHeld
    ensures Ledger(s.(dflt := Some(h)), fate[h.arrival := InDefault])
  {
    hide SlotFate, CommandFates, ClaimFates, LogFates, Numbered;
    var k := h.arrival;
    SlotFilled(fate, InDefault, h, InDefault);
    SlotElsewhere(s.fallback, fate, InFallback, k, InDefault);
    SlotElsewhere(s.combat, fate, InCombat, k, InDefault);
    CommandsElsewhere(s.commands, fate, k, InDefault);
    ClaimsElsewhere(s.claims, fate, k, InDefault);
    LogElsewhere(s.log, fate, k, InDefault);
    NumbersKept(s.last, fate, k, InDefault);
  }

  lemma CombatPut(s: State, fate: Fates, h: Held)
    requires Ledger(s, fate) && s.combat.None? && h.arrival in fate && fate[h.arrival] == NeverHeld
    ensures Ledger(s.(combat := Some(h)), fate[h.arrival := InCombat])
  {
    hide SlotFate, CommandFates, ClaimFates, LogFates, Numbered;
    var k := h.arrival;
    SlotFilled(fate, InCombat, h, InCombat);
    SlotElsewhere(s.dflt, fate, InDefault, k, InCombat);
    SlotElsewhere(s.fallback, fate, InFallback, k, InCombat);
    CommandsElsewhere(s.commands, fate, k, InCombat);
    ClaimsElsewhere(s.claims, fate, k, InCombat);
    LogElsewhere(s.log, fate, k, InCombat);
    NumbersKept(s.last, fate, k, InCombat);
  }

  lemma CommandFilled(commands: seq<Option<Held>>, fate: Fates, i: nat, h: Held)
    requires CommandFates(commands, fate) && (i == 2 || i == 3 || i == 5 || i == 6) && commands[i].None?
    requires h.arrival in fate && fate[h.arrival] == NeverHeld
    ensures CommandFates(commands[i := Some(h)], fate[h.arrival := InCommand(i)])
  {
  }

  lemma CommandPut(s: State, fate: Fates, i: nat, h: Held)
    requires Ledger(s, fate) && (i == 2 || i == 3 || i == 5 || i == 6) && i < |s.commands| && s.commands[i].None?
    requires h.arrival in fate && fate[h.arrival] == NeverHeld
    ensures Ledger(s.(commands := s.commands[i := Some(h)]), fate[h.arrival := InCommand(i)])
  {
    hide SlotFate, CommandFates, ClaimFates, LogFates, Numbered;
    var k := h.arrival;
    CommandFilled(s.commands, fate, i, h);
    SlotElsewhere(s.dflt, fate, InDefault, k, InCommand(i));
    SlotElsewhere(s.fallback, fate, InFallback, k, InCommand(i));
    SlotElsewhere(s.combat, fate, InCombat, k, InCommand(i));
    ClaimsElsewhere(s.claims, fate, k, InCommand(i));
    LogElsewhere(s.log, fate, k, InCommand(i));
    NumbersKept(s.last, fate, k, InCommand(i));
  }

  lemma ClaimAdded(claims: seq<Held>, fate: Fates, h: Held)
    requires ClaimFates(claims, fate) && h.arrival in fate && fate[h.arrival] == NeverHeld
    requires h.claim > 0 && LayerOf(h.kind) == ControlLayer && forall i {:trigger claims[i]} :: 0 <= i < |claims| ==>
      claims[i].claim != h.claim
    ensures ClaimFates(claims + [h], fate[h.arrival := InClaims])
  {
    var more, fate' := claims + [h], fate[h.arrival := InClaims];
    forall k {:trigger fate'[k]} | k in fate' && fate'[k] == InClaims
      ensures exists i :: 0 <= i < |more| && more[i].arrival == k
    {
      if k == h.arrival {
        assert more[|claims|] == h;
      } else {
        assert fate[k] == InClaims;
        var i :| 0 <= i < |claims| && claims[i].arrival == k;
        assert more[i] == claims[i];
      }
    }
  }

  lemma ClaimPut(s: State, fate: Fates, h: Held)
    requires Ledger(s, fate) && h.arrival in fate && fate[h.arrival] == NeverHeld
    requires h.claim > 0 && LayerOf(h.kind) == ControlLayer && forall i {:trigger s.claims[i]} ::
      0 <= i < |s.claims| ==> s.claims[i].claim != h.claim
    ensures Ledger(s.(claims := s.claims + [h]), fate[h.arrival := InClaims])
  {
    hide SlotFate, CommandFates, ClaimFates, LogFates, Numbered;
    var k := h.arrival;
    ClaimAdded(s.claims, fate, h);
    SlotElsewhere(s.dflt, fate, InDefault, k, InClaims);
    SlotElsewhere(s.fallback, fate, InFallback, k, InClaims);
    SlotElsewhere(s.combat, fate, InCombat, k, InClaims);
    CommandsElsewhere(s.commands, fate, k, InClaims);
    LogElsewhere(s.log, fate, k, InClaims);
    NumbersKept(s.last, fate, k, InClaims);
  }

  // ----- updates in place --------------------------------------------------------------------------------------------

  lemma CombatUpdated(s: State, fate: Fates, held: Held) returns (fate': Fates)
    requires Ledger(s, fate) && s.combat.Some? && held.arrival == s.last && s.last in fate && fate[s.last] == NeverHeld
    ensures Ledger(RequestCombat(s, held), fate')
  {
    hide SlotFate, CommandFates, ClaimFates, LogFates, Numbered;
    var k, old_, up := held.arrival, s.combat.value.arrival, Updated(held.arrival);
    SlotIs(s.combat, fate, InCombat);
    OldIsOlder(s.last, fate, old_);
    SlotEmptied(s.combat, fate, InCombat, up);
    SlotElsewhere(s.dflt, fate, InDefault, old_, up);
    SlotElsewhere(s.fallback, fate, InFallback, old_, up);
    CommandsElsewhere(s.commands, fate, old_, up);
    ClaimsElsewhere(s.claims, fate, old_, up);
    LogElsewhere(s.log, fate, old_, up);
    NumbersKept(s.last, fate, old_, up);
    var t, f := s.(combat := None), fate[old_ := up];
    var h := s.combat.value.(id := held.id, arrival := held.arrival);
    assert Ledger(t, f) by { assert t.log == s.log && t.fallback == s.fallback; ParkedStays(s, t); }
    fate' := f[k := InCombat];
    CombatPut(t, f, h);
  }

  lemma OldIsOlder(last: nat, fate: Fates, k: nat)
    requires Numbered(last, fate) && k in fate && last in fate && fate[k] != fate[last]
    ensures k < last
  {
  }

  lemma ClaimReplaced(claims: seq<Held>, fate: Fates, i: nat, h: Held)
    requires ClaimFates(claims, fate) && i < |claims| && h.arrival in fate && fate[h.arrival] == NeverHeld
    requires h.claim == claims[i].claim && LayerOf(h.kind) == ControlLayer
    ensures ClaimFates(claims[i := h], fate[claims[i].arrival := Updated(h.arrival)][h.arrival := InClaims])
  {
    var claims' := claims[i := h];
    var fate' := fate[claims[i].arrival := Updated(h.arrival)][h.arrival := InClaims];
    forall k {:trigger fate'[k]} | k in fate' && fate'[k] == InClaims
      ensures exists j :: 0 <= j < |claims'| && claims'[j].arrival == k
    {
      if k == h.arrival {
        assert claims'[i] == h;
      } else {
        assert fate[k] == InClaims;
        var j :| 0 <= j < |claims| && claims[j].arrival == k;
        assert claims'[j] == claims[j];
      }
    }
  }

  lemma ClaimIn(claims: seq<Held>, fate: Fates, i: nat)
    requires ClaimFates(claims, fate) && i < |claims|
    ensures claims[i].arrival in fate && fate[claims[i].arrival] == InClaims
  {
  }

  lemma ClaimUpdated(s: State, fate: Fates, i: nat, h: Held) returns (fate': Fates)
    requires Ledger(s, fate) && i < |s.claims| && h.arrival == s.last && s.last in fate && fate[s.last] == NeverHeld
    requires h.claim == s.claims[i].claim && LayerOf(h.kind) == ControlLayer
    ensures Ledger(s.(claims := s.claims[i := h]), fate')
  {
    hide SlotFate, CommandFates, ClaimFates, LogFates, Numbered;
    var k, old_, up := h.arrival, s.claims[i].arrival, Updated(h.arrival);
    ClaimIn(s.claims, fate, i);
    OldIsOlder(s.last, fate, old_);
    ClaimReplaced(s.claims, fate, i, h);
    var f := fate[old_ := up];
    fate' := f[k := InClaims];
    SlotElsewhere(s.dflt, fate, InDefault, old_, up);
    SlotElsewhere(s.dflt, f, InDefault, k, InClaims);
    SlotElsewhere(s.fallback, fate, InFallback, old_, up);
    SlotElsewhere(s.fallback, f, InFallback, k, InClaims);
    SlotElsewhere(s.combat, fate, InCombat, old_, up);
    SlotElsewhere(s.combat, f, InCombat, k, InClaims);
    CommandsElsewhere(s.commands, fate, old_, up);
    CommandsElsewhere(s.commands, f, k, InClaims);
    LogElsewhere(s.log, fate, old_, up);
    LogElsewhere(s.log, f, k, InClaims);
    NumbersKept(s.last, fate, old_, up);
    NumbersKept(s.last, f, k, InClaims);
  }

  // ----- swapping defaults -------------------------------------------------------------------------------------------

  /** The default is parked under a new one, and logged as swapped. */
  lemma DefaultParked(s: State, fate: Fates) returns (fate': Fates)
    requires Ledger(s, fate) && s.dflt.Some? && s.fallback.None?
    ensures Ledger(Swapped(s).(fallback := s.dflt, dflt := None), fate')
    ensures NewKept(fate, fate')
  {
    hide SlotFate, CommandFates, ClaimFates, LogFates, Numbered;
    var k := s.dflt.value.arrival;
    fate' := fate[k := InFallback];
    var t := Swapped(s).(fallback := s.dflt, dflt := None);
    assert t.log[|s.log|].what == DefaultSwapped && t.log[|s.log|].arrival == k;
    LogKept(s, fate, t.log[|s.log|]);
    SlotIs(s.dflt, fate, InDefault);
    SlotEmptied(s.dflt, fate, InDefault, InFallback);
    SlotFilled(fate, InFallback, s.dflt.value, InFallback);
    SlotElsewhere(s.combat, fate, InCombat, k, InFallback);
    CommandsElsewhere(s.commands, fate, k, InFallback);
    ClaimsElsewhere(s.claims, fate, k, InFallback);
    LogElsewhere(t.log, fate, k, InFallback);
    NumbersKept(s.last, fate, k, InFallback);
  }

  /** The default goes, logged as swapped. */
  lemma DefaultReplaced(s: State, fate: Fates) returns (fate': Fates)
    requires Ledger(s, fate) && s.dflt.Some?
    ensures Ledger(Swapped(s).(dflt := None), fate')
    ensures NewKept(fate, fate')
  {
    hide SlotFate, CommandFates, ClaimFates, LogFates, Numbered, ParkedLogged;
    var k := s.dflt.value.arrival;
    fate' := fate[k := SwappedOut];
    var t := Swapped(s).(dflt := None);
    assert t.log[|s.log|].what == DefaultSwapped && t.log[|s.log|].arrival == k;
    LogKept(s, fate, t.log[|s.log|]);
    SlotIs(s.dflt, fate, InDefault);
    SlotEmptied(s.dflt, fate, InDefault, SwappedOut);
    SlotElsewhere(s.fallback, fate, InFallback, k, SwappedOut);
    SlotElsewhere(s.combat, fate, InCombat, k, SwappedOut);
    CommandsElsewhere(s.commands, fate, k, SwappedOut);
    ClaimsElsewhere(s.claims, fate, k, SwappedOut);
    LogElsewhere(t.log, fate, k, SwappedOut);
    NumbersKept(s.last, fate, k, SwappedOut);
    ParkedStays(s, t);
  }

  /** The parked default goes; it was logged when it was parked. */
  lemma FallbackDropped(s: State, fate: Fates) returns (fate': Fates)
    requires Ledger(s, fate)
    ensures Ledger(s.(fallback := None), fate')
    ensures NewKept(fate, fate')
  {
    hide SlotFate, CommandFates, ClaimFates, LogFates, Numbered;
    fate' := fate;
    if s.fallback.Some? {
      var k := s.fallback.value.arrival;
      fate' := fate[k := SwappedOut];
      SlotIs(s.fallback, fate, InFallback);
      SlotEmptied(s.fallback, fate, InFallback, SwappedOut);
      SlotElsewhere(s.dflt, fate, InDefault, k, SwappedOut);
      SlotElsewhere(s.combat, fate, InCombat, k, SwappedOut);
      CommandsElsewhere(s.commands, fate, k, SwappedOut);
      ClaimsElsewhere(s.claims, fate, k, SwappedOut);
      LogElsewhere(s.log, fate, k, SwappedOut);
      NumbersKept(s.last, fate, k, SwappedOut);
    }
  }

  lemma DefaultPopped(s: State, fate: Fates, reason: FinishReason) returns (fate': Fates)
    requires Ledger(s, fate)
    ensures Ledger(PopDefault(s, reason), fate') && NewKept(fate, fate')
  {
    hide SlotFate, CommandFates, ClaimFates, LogFates, Numbered;
    var f := DefaultFinished(s, fate, reason);
    var t := FinishDefault(s, reason);
    assert t.dflt.None?;
    if t.fallback.None? {
      fate' := f;
    } else {
      var k := t.fallback.value.arrival;
      fate' := f[k := InDefault];
      SlotIs(t.fallback, f, InFallback);
      SlotEmptied(t.fallback, f, InFallback, InDefault);
      SlotFilled(f, InDefault, t.fallback.value, InDefault);
      SlotElsewhere(t.combat, f, InCombat, k, InDefault);
      CommandsElsewhere(t.commands, f, k, InDefault);
      ClaimsElsewhere(t.claims, f, k, InDefault);
      LogElsewhere(t.log, f, k, InDefault);
      NumbersKept(t.last, f, k, InDefault);
    }
  }

  // ----- a change of selection ---------------------------------------------------------------------------------------

  lemma StartedKeeps(s: State, fate: Fates)
    requires Shaped(s) && Ledger(s, fate)
    ensures Ledger(Started(s), fate)
  {
    hide Numbered, LogFates, SlotFate, CommandFates, ClaimFates, ParkedLogged;
    var t := Started(s);
    assert t.log == s.log && t.last == s.last && t.fallback == s.fallback;
    ParkedStays(s, t);
    match SelectedLayer(s)
    case None =>
    case Some(DefaultLayer) => SlotRelabelled(s.dflt, fate, InDefault);
    case Some(CombatLayer) => SlotRelabelled(s.combat, fate, InCombat);
    case Some(ControlLayer) => ClaimsRelabelled(s.claims, t.claims, fate);
    case Some(layer) => CommandRelabelled(s.commands, fate, Index(layer));
  }

  lemma SlotRelabelled(slot: Option<Held>, fate: Fates, place: Fate)
    requires SlotFate(slot, fate, place) && slot.Some?
    ensures SlotFate(Some(slot.value.(started := true)), fate, place)
  {
  }

  lemma CommandRelabelled(commands: seq<Option<Held>>, fate: Fates, i: nat)
    requires CommandFates(commands, fate) && i < LAYERS && commands[i].Some?
    ensures CommandFates(commands[i := Some(commands[i].value.(started := true))], fate)
  {
  }

  lemma ClaimsRelabelled(claims: seq<Held>, claims': seq<Held>, fate: Fates)
    requires ClaimFates(claims, fate) && |claims'| == |claims|
    requires forall i {:trigger claims'[i]} :: 0 <= i < |claims| ==>
      claims'[i].arrival == claims[i].arrival && claims'[i].claim == claims[i].claim
        && claims'[i].kind == claims[i].kind
    ensures ClaimFates(claims', fate)
  {
    forall k {:trigger fate[k]} | k in fate && fate[k] == InClaims
      ensures exists i :: 0 <= i < |claims'| && claims'[i].arrival == k
    {
      var i :| 0 <= i < |claims| && claims[i].arrival == k;
      assert claims'[i].arrival == k;
    }
  }

  lemma ChangedKeeps(s: State, before: Option<Held>, fate: Fates)
    requires Shaped(s) && Ledger(s, fate)
    ensures Ledger(Changed(s, before), fate)
  {
    var after := Selected(s);
    if after.Some? && (before.None? || before.value.arrival != after.value.arrival) {
      var t := s;
      if before.Some? && StillHeld(s, before.value.arrival) {
        LogKept(s, fate, About(before.value, Suspended, Cut));
        t := Logged(s, About(before.value, Suspended, Cut));
      }
      LogKept(t, fate, About(after.value, Resumed, Arrived));
    }
  }

  lemma BlockedIrrelevant(s: State, fate: Fates, blocked: nat, mobility: Sources)
    requires Ledger(s, fate)
    ensures Ledger(s.(blocked := blocked, mobility := mobility), fate)
  {
  }

  lemma ReconciledKeeps(s: State, fate: Fates)
    requires Shaped(s) && Ledger(s, fate)
    ensures Ledger(Reconciled(s), fate)
  {
    hide SlotFate, CommandFates, ClaimFates, LogFates, Numbered;
    var now := Selected(s);
    if now.Some? {
      LogKept(s, fate, About(now.value, Suspended, Blocked));
      LogKept(s, fate, About(now.value, Resumed, Blocked));
    }
  }

  lemma ReselectedKeeps(s: State, before: Option<Held>, fate: Fates)
    requires Shaped(s) && Ledger(s, fate)
    ensures Ledger(Reselected(s, before), fate)
  {
    hide *;
    ChangedKeeps(s, before, fate);
    StartedKeeps(Changed(s, before), fate);
    ReconciledKeeps(Started(Changed(s, before)), fate);
    ReselectedIs(s, before);
  }

  lemma ReselectedIs(s: State, before: Option<Held>)
    requires Shaped(s)
    ensures Reselected(s, before) == Reconciled(Started(Changed(s, before)))
  {
  }

  // ----- the operations ----------------------------------------------------------------------------------------------

  /** A parked default only ever lies under another. */
  ghost predicate ParkedUnder(s: State) {
    s.fallback.Some? ==> s.dflt.Some?
  }

  lemma InstallKeeps(s: State, fate: Fates, kind: Kind) returns (fate': Fates)
    requires Shaped(s) && Ledger(s, fate)
    ensures Ledger(InstallDefault(s, kind), fate')
  {
    InstallIs(s, kind);
    hide *;
    var held := Stamped(s, kind, 0, 0);
    var f := BothOut(s, fate);
    var t := Swapped(s).(dflt := None, fallback := None);
    f := FreshDefault(t, f, held);
    fate' := f;
    ReselectedKeeps(t.(dflt := Some(held), last := t.last + 1), Selected(s), fate');
  }

  lemma FreshDefault(t: State, fate: Fates, held: Held) returns (fate': Fates)
    requires Ledger(t, fate) && t.dflt.None? && held.arrival == t.last + 1
    ensures Ledger(t.(dflt := Some(held), last := t.last + 1), fate')
  {
    hide Ledger;
    NumberTaken(t, fate);
    var u, f := t.(last := t.last + 1), fate[t.last + 1 := NeverHeld];
    DefaultPut(u, f, held);
    fate' := f[held.arrival := InDefault];
    assert u.(dflt := Some(held)) == t.(dflt := Some(held), last := t.last + 1);
  }

  lemma BothOut(s: State, fate: Fates) returns (fate': Fates)
    requires Ledger(s, fate)
    ensures Ledger(Swapped(s).(dflt := None, fallback := None), fate')
  {
    hide Ledger, Swapped;
    var t := Swapped(s).(dflt := None);
    var f := DefaultOut(s, fate);
    fate' := FallbackDropped(t, f);
    assert t.(fallback := None) == Swapped(s).(dflt := None, fallback := None);
  }

  lemma DefaultOut(s: State, fate: Fates) returns (fate': Fates)
    requires Ledger(s, fate)
    ensures Ledger(Swapped(s).(dflt := None), fate') && Swapped(s).last == s.last
  {
    hide SlotFate, CommandFates, ClaimFates, LogFates, Numbered, ParkedLogged;
    if s.dflt.Some? {
      fate' := DefaultReplaced(s, fate);
    } else {
      fate' := fate;
      assert Swapped(s).(dflt := None) == s;
    }
  }

  lemma InstallIs(s: State, kind: Kind)
    requires Shaped(s)
    ensures var t := Swapped(s).(dflt := None, fallback := None);
      && t.dflt.None? && t.last == s.last && Stamped(s, kind, 0, 0).arrival == t.last + 1
      && Shaped(t.(dflt := Some(Stamped(s, kind, 0, 0)), last := t.last + 1))
      && InstallDefault(s, kind) == Reselected(t.(dflt := Some(Stamped(s, kind, 0, 0)), last := t.last + 1),
          Selected(s))
  {
    hide Reselected, Selected;
  }

  lemma RequestDefaultKeeps(s: State, fate: Fates, held: Held, policy: Policy, empty: bool) returns (fate': Fates)
    requires Shaped(s) && Ledger(s, fate) && ParkedUnder(s) && held.arrival == s.last && s.last in fate
      && fate[s.last] == NeverHeld
    ensures Ledger(RequestDefault(s, held, policy, empty), fate')
  {
    if held.kind == Idle && !empty {
      var scripted := s.commands[SCRIPTED];
      if scripted.Some? && scripted.value.kind == Idle {
        fate' := fate;
      } else {
        var f := CommandFinishedKeepsNew(s, fate, SCRIPTED, Superseded);
        var t := FinishCommand(s, SCRIPTED, Superseded);
        hide Ledger;
        CommandPut(t, f, SCRIPTED, held);
        fate' := f[held.arrival := InCommand(SCRIPTED)];
      }
    } else {
      fate' := DefaultPushed(s, fate, held);
      var t := Pushed(s, held);
      hide Ledger;
      if policy == Override {
        var f := CombatFinished(t, fate', Overridden);
        f := CommandFinished(FinishCombat(t, Overridden), f, SCRIPTED, Overridden);
        fate' := CommandFinished(FinishCommand(FinishCombat(t, Overridden), SCRIPTED, Overridden), f, DISTRACT,
            Overridden);
      }
    }
  }

  ghost function Pushed(s: State, held: Held): (t: State)
    ensures t.commands == s.commands
  {
    Swapped(s).(fallback := if s.dflt.Some? && s.fallback.None? then s.dflt else s.fallback, dflt := Some(held))
  }

  lemma DefaultPushed(s: State, fate: Fates, held: Held) returns (fate': Fates)
    requires Ledger(s, fate) && ParkedUnder(s) && held.arrival == s.last && s.last in fate && fate[s.last] == NeverHeld
    ensures Ledger(Pushed(s, held), fate')
  {
    hide SlotFate, CommandFates, ClaimFates, LogFates, Numbered;
    var f := fate;
    var t := Pushed(s, held).(dflt := None);
    if s.dflt.None? {
      assert t == s;
    } else if s.fallback.None? {
      f := DefaultParked(s, fate);
      assert t == Swapped(s).(fallback := s.dflt, dflt := None);
    } else {
      f := DefaultReplaced(s, fate);
      assert t == Swapped(s).(dflt := None);
    }
    DefaultPut(t, f, held);
    fate' := f[held.arrival := InDefault];
    assert t.(dflt := Some(held)) == Pushed(s, held);
  }

  /** Finishing a command leaves a number that nothing holds as it is. */
  lemma CommandFinishedKeepsNew(s: State, fate: Fates, i: nat, reason: FinishReason) returns (fate': Fates)
    requires Shaped(s) && Ledger(s, fate) && i < LAYERS
    requires s.last in fate && fate[s.last] == NeverHeld
    ensures Ledger(FinishCommand(s, i, reason), fate')
    ensures s.last in fate' && fate'[s.last] == NeverHeld && FinishCommand(s, i, reason).commands[i].None?
  {
    hide Ledger;
    fate' := CommandFinished(s, fate, i, reason);
    assert fate[s.last] == NeverHeld;
  }

  lemma {:induction false} OverrideLeaves(s: State, i: nat, lower: nat)
    requires Shaped(s) && i < LAYERS
    ensures OverrideBelow(s, i, lower).commands[i] == s.commands[i]
    ensures OverrideBelow(s, i, lower)
      == s.(commands := OverrideBelow(s, i, lower).commands, log := OverrideBelow(s, i, lower).log)
    decreases i - lower
  {
    if lower < i {
      if lower == CONTROL {
        OverrideLeaves(s, i, lower + 1);
      } else {
        OverrideLeaves(FinishCommand(s, lower, Overridden), i, lower + 1);
      }
    }
  }

  lemma OverriddenKeeps(s: State, fate: Fates, i: nat) returns (fate': Fates)
    requires Shaped(s) && Ledger(s, fate) && i < LAYERS
    ensures Ledger(FinishCombat(OverrideBelow(s, i, SCRIPTED), Overridden), fate') && NewKept(fate, fate')
    ensures var t := FinishCombat(OverrideBelow(s, i, SCRIPTED), Overridden);
      t.commands[i] == s.commands[i] && t.last == s.last
  {
    hide Ledger;
    OverrideLeaves(s, i, SCRIPTED);
    var f := BelowOverridden(s, fate, i, SCRIPTED);
    fate' := CombatFinished(OverrideBelow(s, i, SCRIPTED), f, Overridden);
  }

  lemma RequestCommandKeeps(s: State, fate: Fates, held: Held, i: nat, policy: Policy) returns (fate': Fates)
    requires Shaped(s) && Ledger(s, fate) && (i == 2 || i == 3 || i == 5 || i == 6)
    requires held.arrival == s.last && s.last in fate && fate[s.last] == NeverHeld
    ensures Ledger(RequestCommand(s, held, i, policy), fate')
  {
    hide Ledger, OverrideBelow, FinishCombat, FinishCommand, NewKept;
    var f := CommandFinishedKeepsNew(s, fate, i, Superseded);
    var t := FinishCommand(s, i, Superseded);
    LastKept(s, i, Superseded);
    if policy == Override {
      var g := OverriddenKeeps(t, f, i);
      NewStays(f, g, s.last);
      f, t := g, FinishCombat(OverrideBelow(t, i, SCRIPTED), Overridden);
    }
    CommandPut(t, f, i, held);
    fate' := f[held.arrival := InCommand(i)];
  }

  lemma LastKept(s: State, i: nat, reason: FinishReason)
    requires Shaped(s) && i < LAYERS
    ensures FinishCommand(s, i, reason).last == s.last
  {
  }

  lemma NewStays(fate: Fates, fate': Fates, k: nat)
    requires NewKept(fate, fate') && k in fate && fate[k] == NeverHeld
    ensures k in fate' && fate'[k] == NeverHeld
  {
  }

  lemma RequestClaimKeeps(s: State, fate: Fates, held: Held) returns (fate': Fates)
    requires Ledger(s, fate) && held.arrival == s.last && s.last in fate && fate[s.last] == NeverHeld
    requires held.claim > 0 && LayerOf(held.kind) == ControlLayer
    ensures Ledger(RequestClaim(s, held), fate')
  {
    hide Ledger;
    var i := ClaimIndex(s.claims, held.claim);
    if i < |s.claims| {
      var h := s.claims[i].(kind := held.kind, id := held.id, arrival := held.arrival);
      fate' := ClaimUpdated(s, fate, i, h);
    } else {
      ClaimPut(s, fate, held);
      fate' := fate[held.arrival := InClaims];
    }
  }

  lemma RequestCombatKeeps(s: State, fate: Fates, held: Held) returns (fate': Fates)
    requires Ledger(s, fate) && held.arrival == s.last && s.last in fate && fate[s.last] == NeverHeld
    ensures Ledger(RequestCombat(s, held), fate')
  {
    if s.combat.Some? {
      fate' := CombatUpdated(s, fate, held);
    } else {
      CombatPut(s, fate, held);
      fate' := fate[held.arrival := InCombat];
    }
  }

  lemma SelfExpiredKeeps(s: State, layer: Layer, fate: Fates) returns (fate': Fates)
    requires Shaped(s) && Ledger(s, fate)
    ensures Ledger(SelfExpired(s, layer), fate')
    ensures SelfExpired(s, layer).dflt == s.dflt && SelfExpired(s, layer).fallback == s.fallback
      && SelfExpired(s, layer).last == s.last
  {
    hide Ledger;
    fate' := fate;
    var before := Selected(s);
    if before.Some? && SelfExpiring(before.value.kind) && LayerOf(before.value.kind) != layer {
      fate' := CommandFinished(s, fate, Index(LayerOf(before.value.kind)), Cancelled);
    }
  }

  lemma PlacedKeeps(t: State, fate: Fates, request: MoveRequest, held: Held) returns (fate': Fates)
    requires Shaped(t) && Ledger(t, fate) && ParkedUnder(t) && held.arrival == t.last && t.last in fate
      && fate[t.last] == NeverHeld
    requires held.kind == request.kind && (LayerOf(request.kind) == ControlLayer ==> held.claim > 0)
    ensures Ledger(Placed(t, request, held), fate')
  {
    hide Ledger, RequestDefault, RequestCombat, RequestClaim, RequestCommand, Selected, PolicyOf;
    var policy := PolicyOf(request.kind, request.resumeCombat);
    match LayerOf(request.kind)
    case DefaultLayer => fate' := RequestDefaultKeeps(t, fate, held, policy, Selected(t).None?);
    case CombatLayer => fate' := RequestCombatKeeps(t, fate, held);
    case ControlLayer => fate' := RequestClaimKeeps(t, fate, held);
    case _ => fate' := RequestCommandKeeps(t, fate, held, Index(LayerOf(request.kind)), policy);
  }

  lemma RequestKeeps(s: State, fate: Fates, request: MoveRequest, discarding: bool) returns (fate': Fates)
    requires Shaped(s) && Ledger(s, fate) && ParkedUnder(s)
    ensures Ledger(Request(s, request, discarding), fate')
  {
    hide Ledger, ParkedUnder, Selected, Reselected, SelfExpired, RequestDefault, RequestCombat, RequestClaim,
      RequestCommand, PolicyOf;
    if Refused(s, request, discarding) {
      fate' := fate;
    } else {
      fate' := RequestTakenKeeps(s, fate, request, discarding);
    }
  }

  lemma RequestTakenKeeps(s: State, fate: Fates, request: MoveRequest, discarding: bool) returns (fate': Fates)
    requires Shaped(s) && Ledger(s, fate) && ParkedUnder(s) && !Refused(s, request, discarding)
    ensures Ledger(Request(s, request, discarding), fate')
  {
    hide *;
    RequestIs(s, request, discarding);
    var layer := LayerOf(request.kind);
    var held := RequestHeld(s, request);
    var f := SelfExpiredKeeps(s, layer, fate);
    var t := SelfExpired(s, layer);
    NumberTaken(t, f);
    t, f := t.(last := s.last + 1), f[s.last + 1 := NeverHeld];
    StillUnder(s, t);
    fate' := PlacedKeeps(t, f, request, held);
    ReselectedKeeps(Placed(t, request, held), Selected(s), fate');
  }

  lemma StillUnder(s: State, t: State)
    requires ParkedUnder(s) && t.dflt == s.dflt && t.fallback == s.fallback
    ensures ParkedUnder(t)
  {
  }

  ghost function RequestHeld(s: State, request: MoveRequest): Held {
    Stamped(s, request.kind, request.id, if LayerOf(request.kind) == ControlLayer then request.claim else 0)
  }

  lemma RequestIs(s: State, request: MoveRequest, discarding: bool)
    requires Shaped(s) && !Refused(s, request, discarding)
    ensures Shaped(SelfExpired(s, LayerOf(request.kind)).(last := s.last + 1))
    ensures Request(s, request, discarding)
         == Reselected(Placed(SelfExpired(s, LayerOf(request.kind)).(last := s.last + 1), request,
             RequestHeld(s, request)), Selected(s))
    ensures RequestHeld(s, request).kind == request.kind && RequestHeld(s, request).arrival == s.last + 1
    ensures LayerOf(request.kind) == ControlLayer ==> RequestHeld(s, request).claim > 0
  {
    hide Reselected, RequestDefault, RequestClaim, RequestCombat, RequestCommand, Selected, PolicyOf, FinishCommand;
  }

  lemma ClearKeeps(s: State, fate: Fates, all: bool) returns (fate': Fates)
    requires Shaped(s) && Ledger(s, fate)
    ensures Ledger(ClearOp(s, all), fate')
  {
    hide Ledger, FinishCommands, FinishCombat, FinishClaims, FinishDefault, FinishFallback, PopDefault, Selected,
      Reselected;
    fate' := CommandsFinished(s, fate, SCRIPTED, Cleared);
    var t := FinishCommands(s, SCRIPTED, Cleared);
    fate' := CombatFinished(t, fate', Cleared);
    t := FinishCombat(t, Cleared);
    if all {
      fate' := ClaimsFinished(t, fate', None, Cleared);
      t := FinishClaims(t, None, Cleared);
      fate' := DefaultFinished(t, fate', Cleared);
      t := FinishDefault(t, Cleared);
      fate' := FallbackFinished(t, fate', Cleared);
      t := FinishFallback(t, Cleared);
    } else if t.fallback.Some? {
      fate' := DefaultPopped(t, fate', Cleared);
      t := PopDefault(t, Cleared);
    }
    LedgerShaped(t, fate');
    ReselectedKeeps(t, Selected(s), fate');
  }

  lemma LedgerShaped(s: State, fate: Fates)
    requires Ledger(s, fate)
    ensures Shaped(s)
  {
  }

  lemma FinishSelectedKeeps(s: State, fate: Fates, reason: FinishReason) returns (fate': Fates)
    requires Shaped(s) && Ledger(s, fate)
    ensures Ledger(FinishSelected(s, reason), fate')
  {
    hide Ledger, FinishCombat, FinishClaim, FinishCommand, PopDefault, Selected, Reselected;
    fate' := fate;
    var t := s;
    match SelectedLayer(s)
    case None =>
    case Some(DefaultLayer) =>
      fate' := DefaultPopped(s, fate, reason);
      LedgerShaped(PopDefault(s, reason), fate');
      ReselectedKeeps(PopDefault(s, reason), Selected(s), fate');
    case Some(CombatLayer) =>
      fate' := CombatFinished(s, fate, reason);
      LedgerShaped(FinishCombat(s, reason), fate');
      ReselectedKeeps(FinishCombat(s, reason), Selected(s), fate');
    case Some(ControlLayer) =>
      var i := BestClaim(s.claims, |s.claims|);
      fate' := ClaimFinished(s, fate, i, reason);
      LedgerShaped(FinishClaim(s, i, reason), fate');
      ReselectedKeeps(FinishClaim(s, i, reason), Selected(s), fate');
    case Some(layer) =>
      fate' := CommandFinished(s, fate, Index(layer), reason);
      ReselectedKeeps(FinishCommand(s, Index(layer), reason), Selected(s), fate');
  }

  lemma ExpireSelectedKeeps(s: State, fate: Fates) returns (fate': Fates)
    requires Shaped(s) && Ledger(s, fate)
    ensures Ledger(ExpireSelected(s), fate')
  {
    hide Ledger, FinishSelected, PopDefault, Selected, Reselected;
    fate' := fate;
    match SelectedLayer(s)
    case None =>
    case Some(DefaultLayer) =>
      if s.fallback.Some? {
        var reason := if s.dflt.value.kind == Follow then TargetLost else Expired;
        fate' := DefaultPopped(s, fate, reason);
        LedgerShaped(PopDefault(s, reason), fate');
        ReselectedKeeps(PopDefault(s, reason), Selected(s), fate');
      }
    case Some(CombatLayer) => fate' := FinishSelectedKeeps(s, fate, TargetLost);
    case Some(ControlLayer) =>
    case Some(_) => fate' := FinishSelectedKeeps(s, fate, Expired);
  }

  lemma ExpireKeeps(s: State, fate: Fates, kind: Kind) returns (fate': Fates)
    requires Shaped(s) && Ledger(s, fate)
    ensures Ledger(Expire(s, kind), fate')
  {
    hide Ledger, FinishCombat, FinishClaim, FinishCommand, PopDefault, Selected, Reselected;
    fate' := fate;
    if LayerOf(kind) == ControlLayer {
      var b := NewestOfKind(s.claims, kind, |s.claims|);
      if b.Some? {
        fate' := ClaimFinished(s, fate, b.value, Expired);
        LedgerShaped(FinishClaim(s, b.value, Expired), fate');
        ReselectedKeeps(FinishClaim(s, b.value, Expired), Selected(s), fate');
      }
    } else {
      var b := HighestOfKind(s.commands, kind, LAYERS);
      if b.Some? {
        fate' := CommandFinished(s, fate, b.value, Expired);
        ReselectedKeeps(FinishCommand(s, b.value, Expired), Selected(s), fate');
      } else if s.combat.Some? && s.combat.value.kind == kind {
        fate' := CombatFinished(s, fate, TargetLost);
        LedgerShaped(FinishCombat(s, TargetLost), fate');
        ReselectedKeeps(FinishCombat(s, TargetLost), Selected(s), fate');
      } else if s.dflt.Some? && s.dflt.value.kind == kind && s.fallback.Some? {
        var reason := if kind == Follow then TargetLost else Expired;
        fate' := DefaultPopped(s, fate, reason);
        LedgerShaped(PopDefault(s, reason), fate');
        ReselectedKeeps(PopDefault(s, reason), Selected(s), fate');
      }
    }
  }

  lemma ControlKeeps(s: State, fate: Fates, kind: Kind, claim: nat) returns (f: Fates, g: Fates)
    requires Shaped(s) && Ledger(s, fate)
    ensures Ledger(CancelControl(s, kind), f) && Ledger(Release(s, claim), g)
  {
    hide Ledger, FinishClaims, FinishClaim, Selected, Reselected;
    f := ClaimsFinished(s, fate, Some(kind), Cancelled);
    ReselectedKeeps(FinishClaims(s, Some(kind), Cancelled), Selected(s), f);
    g := fate;
    var i := ClaimIndex(s.claims, claim);
    if i < |s.claims| {
      g := ClaimFinished(s, fate, i, Cancelled);
      LedgerShaped(FinishClaim(s, i, Cancelled), g);
      ReselectedKeeps(FinishClaim(s, i, Cancelled), Selected(s), g);
    }
  }

  lemma DieKeeps(s: State, fate: Fates) returns (fate': Fates)
    requires Shaped(s) && Ledger(s, fate)
    ensures Ledger(Die(s), fate')
  {
    hide Ledger, FinishCombat, FinishFallback, FinishDefault, FinishCommand, FinishClaims;
    fate' := DefaultFinished(s, fate, Died);
    var t := FinishDefault(s, Died);
    fate' := FallbackFinished(t, fate', Died);
    t := FinishFallback(t, Died);
    fate' := CombatFinished(t, fate', Died);
    t := FinishCombat(t, Died);
    fate' := CommandFinished(t, fate', 2, Died);
    t := FinishCommand(t, 2, Died);
    fate' := CommandFinished(t, fate', 3, Died);
    t := FinishCommand(t, 3, Died);
    fate' := ClaimsFinished(t, fate', None, Died);
    t := FinishClaims(t, None, Died);
    LedgerShaped(t, fate');
    fate' := CommandFinished(t, fate', 5, Died);
    t := FinishCommand(t, 5, Died);
    fate' := CommandFinished(t, fate', 6, Died);
    t := FinishCommand(t, 6, Died);
    BlockedIrrelevant(t, fate', 0, Die(s).mobility);
  }

  lemma InhibitKeeps(s: State, fate: Fates, what: Inhibition, source: nat)
    requires Shaped(s) && Ledger(s, fate)
    ensures Ledger(Inhibit(s, what, source), fate) && Ledger(Uninhibit(s, what, source), fate)
  {
    hide Ledger, Reconciled;
    var on := s.(mobility := s.mobility.With(what, s.mobility.Of(what) + [source]));
    BlockedIrrelevant(s, fate, s.blocked, on.mobility);
    ReconciledKeeps(on, fate);
    var off := s.(mobility := s.mobility.With(what, Dropped(s.mobility.Of(what), source)));
    BlockedIrrelevant(s, fate, s.blocked, off.mobility);
    ReconciledKeeps(off, fate);
  }

  /** Every operation keeps the ledger. */
  lemma StepKeeps(s: State, fate: Fates, op: Op) returns (fate': Fates)
    requires Shaped(s) && Ledger(s, fate) && ParkedUnder(s)
    ensures Ledger(Step(s, op), fate')
  {
    hide *;
    StepIs(s, op);
    match op
    case DoInstallDefault(kind) => fate' := InstallKeeps(s, fate, kind);
    case DoRequest(request, discarding) => fate' := RequestKeeps(s, fate, request, discarding);
    case DoClear(all) => fate' := ClearKeeps(s, fate, all);
    case DoExpireSelected => fate' := ExpireSelectedKeeps(s, fate);
    case DoExpire(kind) => fate' := ExpireKeeps(s, fate, kind);
    case DoFinishSelected(reason) => fate' := FinishSelectedKeeps(s, fate, reason);
    case DoCancelControl(kind) => var g; fate', g := ControlKeeps(s, fate, kind, 0);
    case DoRelease(claim) => var f; f, fate' := ControlKeeps(s, fate, Fear, claim);
    case DoNotifyCombat =>
      fate' := CommandFinished(s, fate, 3, Cancelled);
      ReselectedKeeps(FinishCommand(s, 3, Cancelled), Selected(s), fate');
    case DoDie => fate' := DieKeeps(s, fate);
    case DoInhibit(what, source) => fate' := fate; InhibitKeeps(s, fate, what, source);
    case DoUninhibit(what, source) => fate' := fate; InhibitKeeps(s, fate, what, source);
  }

  lemma StepIs(s: State, op: Op)
    requires Shaped(s)
    ensures LAYERS == 7
    ensures op.DoInstallDefault? ==> Step(s, op) == InstallDefault(s, op.kind)
    ensures op.DoRequest? ==> Step(s, op) == Request(s, op.request, op.discarding)
    ensures op.DoClear? ==> Step(s, op) == ClearOp(s, op.all)
    ensures op.DoExpireSelected? ==> Step(s, op) == ExpireSelected(s)
    ensures op.DoExpire? ==> Step(s, op) == Expire(s, op.expired)
    ensures op.DoFinishSelected? ==> Step(s, op) == FinishSelected(s, op.reason)
    ensures op.DoCancelControl? ==> Step(s, op) == CancelControl(s, op.cancelled)
    ensures op.DoRelease? ==> Step(s, op) == Release(s, op.claim)
    ensures op.DoNotifyCombat? ==> Step(s, op) == Reselected(FinishCommand(s, 3, Cancelled), Selected(s))
    ensures op.DoDie? ==> Step(s, op) == Die(s)
    ensures op.DoInhibit? ==> Step(s, op) == Inhibit(s, op.what, op.source)
    ensures op.DoUninhibit? ==> Step(s, op) == Uninhibit(s, op.whatEnds, op.sourceEnds)
  {
  }
}
