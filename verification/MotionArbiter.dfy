/**
 The movement arbiter as it runs: slots, claims, events and the open transaction, changed step by step
 (src/motion/Arbiter.cpp). Each public method takes the state of the model to the state its specification
 names, and keeps the ledger, the pause and the scope in order.
 */
module MotionArbiter {
  import opened MotionModel
  import opened MotionLedger
  import Runs = MotionRuns
  import opened MotionTransactions

  /** The counted sources of the four inhibitions (src/motion/Mobility.cpp:102-161). */
  class Mobility {
    var sources: Sources

    constructor ()
      ensures sources == Sources([], [], [], [])
    {
      sources := Sources([], [], [], []);
    }

    method Inhibit(what: Inhibition, source: nat) returns (edge: bool)
      modifies this
      ensures source in old(sources).Of(what) ==> sources == old(sources) && !edge
      ensures source !in old(sources).Of(what) ==> sources == old(sources).With(what, old(sources).Of(what) + [source])
      ensures edge <==> old(sources).Of(what) == []
    {
      var s := sources.Of(what);
      if source in s { return false; }
      sources := sources.With(what, s + [source]);
      edge := |sources.Of(what)| == 1;
    }

    method Uninhibit(what: Inhibition, source: nat) returns (edge: bool)
      modifies this
      ensures source !in old(sources).Of(what) ==> sources == old(sources) && !edge
      ensures source in old(sources).Of(what) ==>
        sources == old(sources).With(what, Dropped(old(sources).Of(what), source))
      ensures edge <==> source in old(sources).Of(what) && sources.Of(what) == []
    {
      var s := sources.Of(what);
      var it := 0;
      while it < |s| && s[it] != source
        invariant 0 <= it <= |s| && forall k {:trigger s[k]} :: 0 <= k < it ==> s[k] != source
      {
        it := it + 1;
      }
      if it == |s| { return false; }
      ErasedIsDropped(s, source, it);
      sources := sources.With(what, s[..it] + s[it + 1..]);
      edge := sources.Of(what) == [];
    }

    /** Releases every source of the domain from every inhibition. */
    method DropDomain(domain: nat)
      modifies this
      ensures sources == MotionModel.DropDomain(old(sources), domain)
    {
      var rooted := Kept(sources.rooted, domain);
      var stunned := Kept(sources.stunned, domain);
      var dead := Kept(sources.dead, domain);
      var possessed := Kept(sources.possessed, domain);
      sources := Sources(rooted, stunned, dead, possessed);
    }

    method Kept(s: seq<nat>, domain: nat) returns (out: seq<nat>)
      ensures out == Outside(s, domain)
    {
      out := [];
      var i := 0;
      while i < |s|
        invariant 0 <= i <= |s| && out + Outside(s[i..], domain) == Outside(s, domain)
      {
        hide Outside;
        OutsideOne(s, i, domain);
        if s[i] / SHIFT60 != domain { out := out + [s[i]]; }
        i := i + 1;
      }
    }
  }

  lemma OutsideOne(s: seq<nat>, i: nat, domain: nat)
    requires i < |s|
    ensures Outside(s[i..], domain) == (if s[i] / SHIFT60 == domain then [] else [s[i]]) + Outside(s[i + 1..], domain)
  {
    assert s[i..][1..] == s[i + 1..];
  }

  lemma {:induction false} ErasedIsDropped(s: seq<nat>, x: nat, k: nat)
    requires k < |s| && s[k] == x && forall j {:trigger s[j]} :: 0 <= j < k ==> s[j] != x
    ensures s[..k] + s[k + 1..] == Dropped(s, x)
    decreases |s|
  {
    if k > 0 {
      ErasedIsDropped(s[1..], x, k - 1);
      assert s[..k] == [s[0]] + s[1..][..k - 1] && s[k + 1..] == s[1..][k..];
    }
  }

  class Arbiter {
    var dflt: Option<Held>
    var fallback: Option<Held>
    var combat: Option<Held>
    const commands: array<Option<Held>>
    var claims: seq<Held>
    var last: nat
    var events: seq<Event>
    var depth: nat
    var outerKind: TransactionKind
    const mobility: Mobility
    var blockedSeq: nat
    ghost var drained: seq<Event>
    ghost var fate: Fates

    /** What the fields hold, with every event logged so far. */
    ghost function View(): State
      reads this`dflt, this`fallback, this`combat, this`claims, this`last, this`events, this`drained, this`blockedSeq,
            commands, mobility
    {
      State(dflt, fallback, combat, commands[..], claims, last, drained + events, blockedSeq, mobility.sources)
    }

    /** Usable in the middle of an operation. */
    ghost predicate Built()
      reads commands
    {
      commands.Length == LAYERS && commands[0].None? && commands[1].None? && commands[CONTROL].None?
    }

    /** The ledger balances, as it does after every piece of an operation. */
    ghost predicate Sound()
      reads this`dflt, this`fallback, this`combat, this`claims, this`last, this`events, this`drained, this`blockedSeq,
            commands, mobility, this`fate
    {
      Built() && Ledger(View(), fate)
    }

    ghost predicate Valid()
      reads this, commands, mobility
    {
      && Sound() && ParkedUnder(View()) && Runs.Settled(View())
      && ScopeOk(Scoped())
    }

    ghost function Scoped(): Scope
      reads this`depth, this`outerKind
    {
      Scope(depth, outerKind)
    }

    lemma Parts()
      requires Valid()
      ensures Sound() && ParkedUnder(View()) && Runs.Settled(View()) && ScopeOk(Scoped())
    {
    }

    lemma Whole()
      requires Sound() && ParkedUnder(View()) && Runs.Settled(View()) && ScopeOk(Scoped())
      ensures Valid()
    {
    }

    constructor ()
      ensures fresh(commands) && fresh(mobility) && Valid() && View() == Fresh() && Scoped() == Scope(0, Normal)
    {
      hide Ledger, ParkedUnder, Runs.Settled, Fresh;
      dflt, fallback, combat, claims, last, events, depth, outerKind, blockedSeq := None, None, None, [], 0, [], 0,
        Normal, 0;
      drained, fate := [], map[];
      commands := new Option<Held>[LAYERS](_ => None);
      mobility := new Mobility();
      new;
      Runs.FreshIsSafe();
      assert View() == Fresh();
    }

    // ----- queries ---------------------------------------------------------------------------------------------------

    /** The index of the selected claim. */
    method SelectedClaimIndex() returns (best: Option<nat>)
      ensures claims == [] ==> best.None?
      ensures claims != [] ==> best == Some(BestClaim(claims, |claims|))
    {
      best := None;
      var i := 0;
      while i < |claims|
        invariant 0 <= i <= |claims|
        invariant i == 0 ==> best.None?
        invariant i > 0 ==> best == Some(BestClaim(claims, i))
      {
        if best.None? || Outranks(claims[i], claims[best.value]) { best := Some(i); }
        i := i + 1;
      }
    }

    /** Down the command layers, the claims standing for theirs, then combat and the default. */
    method SelectedLayer() returns (layer: Option<Layer>)
      requires Built()
      ensures layer == MotionModel.SelectedLayer(View())
    {
      ghost var s := View();
      var i := LAYERS;
      while i > SCRIPTED
        invariant SCRIPTED <= i <= LAYERS
        invariant forall k {:trigger commands[k]} :: i <= k < LAYERS && k != CONTROL ==> commands[k].None?
        invariant i <= CONTROL ==> claims == []
      {
        i := i - 1;
        if i == CONTROL {
          if claims != [] { return Some(ControlLayer); }
        } else if commands[i].Some? {
          return Some(if i == 2 then ScriptedLayer else if i == 3 then DistractLayer else if i == 5 then ForcedLayer
            else TaxiLayer);
        }
      }
      if combat.Some? { return Some(CombatLayer); }
      if dflt.Some? { return Some(DefaultLayer); }
      return None;
    }

    method Selected() returns (h: Option<Held>)
      requires Built()
      ensures h == MotionModel.Selected(View())
    {
      var layer := SelectedLayer();
      match layer {
        case None => h := None;
        case Some(DefaultLayer) => h := dflt;
        case Some(CombatLayer) => h := combat;
        case Some(ControlLayer) =>
          var best := SelectedClaimIndex();
          h := Some(claims[best.value]);
        case Some(l) => h := commands[Index(l)];
      }
    }

    method HasClaim(kind: Kind) returns (b: bool)
      ensures b == MotionModel.HasClaim(claims, kind)
    {
      var i := 0;
      while i < |claims|
        invariant 0 <= i <= |claims| && forall k {:trigger claims[k]} :: 0 <= k < i ==> claims[k].kind != kind
      {
        if claims[i].kind == kind { return true; }
        i := i + 1;
      }
      b := false;
    }

    /** Every active reason: the inhibitions, then those of the arbiter's own entries. */
    method Reasons() returns (bits: set<Reason>)
      requires Built()
      ensures bits == MotionModel.Reasons(View())
    {
      bits := mobility.sources.Reasons();
      var feared := HasClaim(Fear);
      if feared { bits := bits + {ReasonFeared}; }
      var confused := HasClaim(Confused);
      if confused { bits := bits + {ReasonConfused}; }
      if commands[DISTRACT].Some? { bits := bits + {ReasonDistracted}; }
      if commands[TAXI].Some? { bits := bits + {ReasonOnTaxi}; }
    }

    method Evaluate() returns (d: Decision)
      requires Built()
      ensures d == MotionModel.Evaluate(View())
    {
      var layer := SelectedLayer();
      var reasons := Reasons();
      d := DECIDE(ClassOf(layer), reasons);
    }

    /** Whether an entry in view has this number. */
    method StillHeld(arrival: nat) returns (b: bool)
      requires Built()
      ensures b == MotionModel.StillHeld(View(), arrival)
    {
      ghost var s := View();
      if dflt.Some? && dflt.value.arrival == arrival { return true; }
      if combat.Some? && combat.value.arrival == arrival { return true; }
      var i := SCRIPTED;
      while i < LAYERS
        invariant SCRIPTED <= i <= LAYERS
        invariant forall k {:trigger commands[k]} :: SCRIPTED <= k < i && commands[k].Some? ==>
          commands[k].value.arrival != arrival
      {
        if commands[i].Some? && commands[i].value.arrival == arrival {
          assert s.commands[i] == commands[i];
          return true;
        }
        i := i + 1;
      }
      i := 0;
      while i < |claims|
        invariant 0 <= i <= |claims| && forall k {:trigger claims[k]} :: 0 <= k < i ==> claims[k].arrival != arrival
      {
        if claims[i].arrival == arrival { return true; }
        i := i + 1;
      }
      b := false;
      assert forall k {:trigger s.commands[k]} :: 0 <= k < LAYERS ==> s.commands[k] == commands[k];
    }

    /** Every claim in order of precedence, by insertion. */
    method Claims() returns (out: array<Held>)
      ensures fresh(out) && Permuted(out[..], claims)
      ensures forall i, j {:trigger out[i], out[j]} :: 0 <= i < j < out.Length ==> !Outranks(out[j], out[i])
    {
      ghost var c := claims;
      out := new Held[|claims|](k requires 0 <= k < |claims| reads this => claims[k]);
      assert out[..] == c;
      var i := 1;
      while i < out.Length
        invariant 1 <= i && Permuted(out[..], c) && Ranked(out[..], if i <= out.Length then i else out.Length)
        modifies out
      {
        InsertClaim(out, i);
        i := i + 1;
      }
    }

    /** Moves entry i down past every entry it outranks. */
    method InsertClaim(out: array<Held>, i: nat)
      requires 0 < i < out.Length && Ranked(out[..], i)
      modifies out
      ensures Permuted(out[..], old(out[..])) && Ranked(out[..], i + 1)
    {
      ghost var c := out[..];
      var key := out[i];
      var j := i;
      while j > 0 && Outranks(key, out[j - 1])
        invariant 0 <= j <= i
        invariant forall k {:trigger out[k]} :: 0 <= k < out.Length && k != j ==>
          out[k] == if j < k <= i then c[k - 1] else c[k]
        invariant forall k {:trigger c[k]} :: j <= k < i ==> Outranks(key, c[k])
      {
        out[j] := out[j - 1];
        j := j - 1;
      }
      out[j] := key;
      MovedIs(c, out[..], i, j);
      InsertedInOrder(c, i, j);
    }

    // ----- pieces ----------------------------------------------------------------------------------------------------

    method Push(e: Event)
      modifies this`events
      ensures View() == Logged(old(View()), e)
    {
      events := events + [e];
      assert drained + events == old(drained + events) + [e];
    }

    method FinishDefault(reason: FinishReason)
      requires Sound()
      modifies this`events, this`dflt, this`fate
      ensures Sound() && NewKept(old(fate), fate) && View() == MotionModel.FinishDefault(old(View()), reason)
    {
      hide Ledger;
      ghost var f := DefaultFinished(View(), fate, reason);
      fate := f;
      if dflt.None? { return; }
      Push(About(dflt.value, Finished, reason));
      dflt := None;
    }

    method FinishFallback(reason: FinishReason)
      requires Sound()
      modifies this`events, this`fallback, this`fate
      ensures Sound() && NewKept(old(fate), fate) && View() == MotionModel.FinishFallback(old(View()), reason)
    {
      hide Ledger;
      ghost var f := FallbackFinished(View(), fate, reason);
      fate := f;
      if fallback.None? { return; }
      Push(About(fallback.value, Finished, reason));
      fallback := None;
    }

    method FinishCombat(reason: FinishReason)
      requires Sound()
      modifies this`events, this`combat, this`fate
      ensures Sound() && NewKept(old(fate), fate) && View() == MotionModel.FinishCombat(old(View()), reason)
    {
      hide Ledger;
      ghost var f := CombatFinished(View(), fate, reason);
      fate := f;
      if combat.None? { return; }
      Push(About(combat.value, Finished, reason));
      combat := None;
    }

    method FinishCommand(i: nat, reason: FinishReason)
      requires Sound() && i < LAYERS
      modifies this`events, this`fate, commands
      ensures Sound() && NewKept(old(fate), fate) && View() == MotionModel.FinishCommand(old(View()), i, reason)
    {
      hide Ledger;
      ghost var f := CommandFinished(View(), fate, i, reason);
      fate := f;
      if commands[i].None? { return; }
      Push(About(commands[i].value, Finished, reason));
      commands[i] := None;
      assert commands[..] == old(commands[..])[i := None];
    }

    method PutCommand(i: nat, h: Held)
      requires Built() && (i == 2 || i == 3 || i == 5 || i == 6)
      modifies commands
      ensures Built() && View() == old(View()).(commands := old(View()).commands[i := Some(h)])
    {
      commands[i] := Some(h);
      assert commands[..] == old(commands[..])[i := Some(h)];
    }

    method FinishClaim(i: nat, reason: FinishReason)
      requires Sound() && i < |claims|
      modifies this`events, this`claims, this`fate
      ensures Sound() && NewKept(old(fate), fate) && View() == MotionModel.FinishClaim(old(View()), i, reason)
    {
      hide Ledger;
      ghost var f := ClaimFinished(View(), fate, i, reason);
      fate := f;
      Push(About(claims[i], Finished, reason));
      claims := claims[..i] + claims[i + 1..];
    }

    method BestOfKind(kind: Option<Kind>) returns (best: Option<nat>)
      ensures best == MotionModel.BestOfKind(claims, kind, |claims|)
    {
      best := None;
      var i := 0;
      while i < |claims|
        invariant 0 <= i <= |claims| && best == MotionModel.BestOfKind(claims, kind, i)
      {
        if kind.None? || claims[i].kind == kind.value {
          if best.None? || Outranks(claims[i], claims[best.value]) { best := Some(i); }
        }
        i := i + 1;
      }
    }

    /** The claims of a kind, or all of them, in order of precedence. */
    method FinishClaims(kind: Option<Kind>, reason: FinishReason)
      requires Sound()
      modifies this`events, this`claims, this`fate
      ensures Sound() && NewKept(old(fate), fate) && View() == MotionModel.FinishClaims(old(View()), kind, reason)
    {
      hide Ledger;
      ghost var goal := MotionModel.FinishClaims(View(), kind, reason);
      while true
        invariant MotionModel.FinishClaims(View(), kind, reason) == goal && Sound() && NewKept(old(fate), fate)
        decreases |claims|
      {
        var best := BestOfKind(kind);
        if best.None? { break; }
        FinishClaim(best.value, reason);
      }
    }

    method PopDefault(reason: FinishReason)
      requires Sound()
      modifies this`events, this`dflt, this`fallback, this`fate
      ensures Sound() && View() == MotionModel.PopDefault(old(View()), reason)
    {
      hide Ledger;
      ghost var f := DefaultPopped(View(), fate, reason);
      FinishDefault(reason);
      dflt, fallback := fallback, None;
      fate := f;
    }

    method LogSwap()
      requires Built()
      modifies this`events
      ensures View() == Swapped(old(View()))
    {
      if dflt.Some? { Push(Event(DefaultSwapped, dflt.value.kind, dflt.value.id, Superseded, 0, dflt.value.arrival)); }
    }

    /** A fresh entry, with the next number. */
    method Stamp(kind: Kind, id: nat, claim: nat) returns (h: Held)
      modifies this`last
      ensures h == Stamped(old(View()), kind, id, claim) && View() == old(View()).(last := old(last) + 1)
    {
      last := last + 1;
      h := Held(kind, id, last, claim, false);
    }

    // ----- comparing the selection -----------------------------------------------------------------------------------

    method ReconcileBlock()
      requires Built()
      modifies this`events, this`blockedSeq
      ensures View() == Reconciled(old(View()))
    {
      hide MotionModel.Selected, MotionModel.Evaluate;
      var selected := Selected();
      var d := Evaluate();
      if selected.Some? && !d.ticks {
        if blockedSeq != selected.value.arrival {
          Push(About(selected.value, Suspended, Blocked));
          blockedSeq := selected.value.arrival;
        }
        return;
      }
      if blockedSeq != 0 {
        if selected.Some? && selected.value.arrival == blockedSeq {
          Push(About(selected.value, Resumed, Blocked));
        }
        blockedSeq := 0;
      }
    }

    /** Marks the held entry with this number, found place by place, as started. */
    method StartBySeq(arrival: nat)
      requires Sound()
      requires MotionModel.Selected(View()).Some? && MotionModel.Selected(View()).value.arrival == arrival
      modifies this`dflt, this`combat, this`claims, commands
      ensures Built() && View() == Started(old(View()))
    {
      hide Ledger;
      ghost var s, f := View(), fate;
      SelectedPlace(s, f);
      if dflt.Some? && dflt.value.arrival == arrival {
        OnlyDefault(s, f);
        dflt := Some(dflt.value.(started := true));
        return;
      }
      if combat.Some? && combat.value.arrival == arrival {
        OnlyCombat(s, f);
        combat := Some(combat.value.(started := true));
        return;
      }
      var done := StartCommand(arrival);
      if !done { StartClaim(arrival); }
    }

    /** The part of the search that goes over the command slots. */
    method StartCommand(arrival: nat) returns (done: bool)
      requires Sound()
      requires MotionModel.Selected(View()).Some? && MotionModel.Selected(View()).value.arrival == arrival
      requires MotionModel.SelectedLayer(View()) != Some(DefaultLayer)
        && MotionModel.SelectedLayer(View()) != Some(CombatLayer)
      modifies commands
      ensures Built() && (done ==> View() == Started(old(View())))
      ensures !done ==> View() == old(View()) && MotionModel.SelectedLayer(View()) == Some(ControlLayer)
    {
      hide Ledger;
      ghost var s, f := View(), fate;
      SelectedPlace(s, f);
      var i := SCRIPTED;
      while i < LAYERS
        invariant SCRIPTED <= i <= LAYERS && View() == s && Built()
        invariant forall k {:trigger s.commands[k]} :: SCRIPTED <= k < i && k != CONTROL && s.commands[k].Some? ==>
          s.commands[k].value.arrival != arrival
      {
        assert s.commands[i] == commands[i];
        if i != CONTROL && commands[i].Some? && commands[i].value.arrival == arrival {
          OnlyCommand(s, f, i);
          PutCommand(i, commands[i].value.(started := true));
          return true;
        }
        i := i + 1;
      }
      done := false;
    }

    method StartClaim(arrival: nat)
      requires Sound()
      requires MotionModel.SelectedLayer(View()) == Some(ControlLayer)
        && MotionModel.Selected(View()).value.arrival == arrival
      modifies this`claims
      ensures View() == Started(old(View()))
    {
      hide Ledger;
      ghost var s := View();
      ghost var b := BestClaim(claims, |claims|);
      OneClaim(s, fate, b);
      var i := 0;
      while i < |claims|
        invariant 0 <= i <= b && View() == s
      {
        if claims[i].arrival == arrival {
          claims := claims[i := claims[i].(started := true)];
          return;
        }
        i := i + 1;
      }
      assert false;
    }

    method Reselect(before: Option<Held>)
      requires Sound()
      modifies this`events, this`blockedSeq, this`dflt, this`combat, this`claims, commands
      ensures Sound() && View() == Reselected(old(View()), before)
    {
      hide Ledger, MotionModel.Selected, Changed, Started, Reconciled, Reselected;
      ghost var s := View();
      ReselectedKeeps(s, before, fate);
      ReselectedIs(s, before);
      ChangedKeeps(s, before, fate);
      Runs.ChangedSame(s, before);
      var after := LogChange(before);
      if after.Some? {
        StartBySeq(after.value.arrival);
      } else {
        NothingStarted(View());
      }
      ReconcileBlock();
    }

    /** The events of a change of selection. */
    method LogChange(before: Option<Held>) returns (after: Option<Held>)
      requires Built()
      modifies this`events
      ensures Built() && View() == Changed(old(View()), before) && after == MotionModel.Selected(old(View()))
    {
      hide MotionModel.Selected, MotionModel.StillHeld;
      after := Selected();
      if after.Some? && (before.None? || before.value.arrival != after.value.arrival) {
        if before.Some? {
          var held := StillHeld(before.value.arrival);
          if held { Push(About(before.value, Suspended, Cut)); }
        }
        if after.value.started && after.value.arrival != last { Push(About(after.value, Resumed, Arrived)); }
      }
    }

    // ----- transactions ----------------------------------------------------------------------------------------------

    /** The guard's constructor. */
    method Begin(kind: TransactionKind) returns (tx: Guard)
      modifies this`depth, this`outerKind
      ensures Scoped() == Opened(old(Scoped()), kind) && tx == GuardOf(old(Scoped()), kind)
    {
      var outermost := depth == 0;
      var raised, restore := false, Normal;
      if outermost {
        outerKind := kind;
      } else if kind == Death {
        outerKind := Death;
      } else if Stronger(kind, outerKind) {
        restore := outerKind;
        outerKind := kind;
        raised := true;
      }
      depth := depth + 1;
      tx := Guard(outermost, raised, restore);
    }

    /** The guard's destructor. */
    method End(tx: Guard)
      requires Scoped().depth > 0
      modifies this`depth, this`outerKind
      ensures Scoped() == Closed(old(Scoped()), tx)
    {
      depth := depth - 1;
      if tx.outermost {
        outerKind := Normal;
      } else if tx.raised && outerKind != Death {
        outerKind := tx.restore;
      }
    }

    // ----- the public operations -------------------------------------------------------------------------------------

    method NotifyCombatStarted()
      requires Valid()
      modifies this, commands
      ensures Valid() && View() == Step(old(View()), DoNotifyCombat) && Scoped() == old(Scoped())
        && drained == old(drained)
    {
      hide *;
      Parts();
      StepLifts(View(), DoNotifyCombat);
      ScopeBack(Scoped(), Normal);
      var tx := Begin(Normal);
      CancelDistract();
      End(tx);
      Whole();
    }

    method CancelDistract()
      requires Sound()
      modifies this`events, this`blockedSeq, this`dflt, this`combat, this`claims, this`fate, commands
      ensures Sound() && View() == NotifyCombat(old(View()))
    {
      hide Ledger, Reselected, MotionModel.Selected, MotionModel.FinishCommand;
      var before := Selected();
      FinishCommand(DISTRACT, Cancelled);
      Reselect(before);
    }

    method Clear(all: bool)
      requires Valid()
      modifies this, commands
      ensures Valid() && View() == Step(old(View()), DoClear(all)) && Scoped() == old(Scoped())
        && drained == old(drained)
    {
      hide *;
      Parts();
      StepLifts(View(), DoClear(all));
      ScopeBack(Scoped(), if all then ClearAll else TransactionKind.Clear);
      var tx := Begin(if all then ClearAll else TransactionKind.Clear);
      ClearBody(all);
      End(tx);
      Whole();
    }

    method ClearBody(all: bool)
      requires Sound()
      modifies this`events, this`blockedSeq, this`dflt, this`fallback, this`combat, this`claims, this`fate, commands
      ensures Sound() && View() == ClearOp(old(View()), all)
    {
      hide Ledger, Reselected, MotionModel.Selected, MotionModel.FinishCommands, MotionModel.PopDefault,
           MotionModel.FinishClaims, MotionModel.FinishDefault, MotionModel.FinishFallback, MotionModel.FinishCombat;
      var before := Selected();
      FinishCommands(Cleared);
      FinishCombat(Cleared);
      if all {
        FinishClaims(None, Cleared);
        FinishDefault(Cleared);
        FinishFallback(Cleared);
      } else if fallback.Some? {
        PopDefault(Cleared);
      }
      Reselect(before);
    }

    method FinishCommands(reason: FinishReason)
      requires Sound()
      modifies this`events, this`fate, commands
      ensures Sound() && View() == MotionModel.FinishCommands(old(View()), SCRIPTED, reason)
    {
      hide Ledger, MotionModel.FinishCommand;
      ghost var goal := MotionModel.FinishCommands(View(), SCRIPTED, reason);
      var i := SCRIPTED;
      while i < LAYERS
        invariant SCRIPTED <= i <= LAYERS && Sound() && MotionModel.FinishCommands(View(), i, reason) == goal
      {
        FinishCommand(i, reason);
        i := i + 1;
      }
    }

    method InstallDefault(kind: Kind)
      requires Valid()
      modifies this, commands
      ensures Valid() && View() == Step(old(View()), DoInstallDefault(kind)) && Scoped() == old(Scoped())
        && drained == old(drained)
    {
      hide *;
      Parts();
      StepLifts(View(), DoInstallDefault(kind));
      ScopeBack(Scoped(), Normal);
      var tx := Begin(Normal);
      InstallBody(kind);
      End(tx);
      Whole();
    }

    method InstallBody(kind: Kind)
      requires Sound()
      modifies this`events, this`blockedSeq, this`dflt, this`fallback, this`combat, this`claims, this`fate, this`last,
               commands
      ensures Sound() && View() == MotionModel.InstallDefault(old(View()), kind)
    {
      ghost var s := View();
      InstalledIs(s, kind);
      hide MotionModel.InstallDefault, Reselected, MotionModel.Selected, Installed, Sound;
      var before := Selected();
      SwapIn(kind);
      Reselect(before);
    }

    method SwapIn(kind: Kind)
      requires Sound()
      modifies this`events, this`dflt, this`fallback, this`last, this`fate
      ensures Sound() && View() == Installed(old(View()), kind)
    {
      hide Ledger, Swapped;
      ghost var f := InstalledKeeps(View(), fate, kind);
      LogSwap();
      var h := Stamp(kind, 0, 0);
      dflt, fallback := Some(h), None;
      fate := f;
    }

    method ExpireSelected()
      requires Valid()
      modifies this, commands
      ensures Valid() && View() == Step(old(View()), DoExpireSelected) && Scoped() == old(Scoped())
        && drained == old(drained)
    {
      hide *;
      Parts();
      StepLifts(View(), DoExpireSelected);
      ScopeBack(Scoped(), Normal);
      var tx := Begin(Normal);
      ExpireSelectedBody();
      End(tx);
      Whole();
    }

    method ExpireSelectedBody()
      requires Sound()
      modifies this`events, this`blockedSeq, this`dflt, this`fallback, this`combat, this`claims, this`fate, commands
      ensures Sound() && View() == MotionModel.ExpireSelected(old(View()))
    {
      hide Ledger, Reselected, MotionModel.Selected, MotionModel.SelectedLayer, MotionModel.PopDefault,
        MotionModel.FinishSelected;
      LayerHolds(View());
      var before := Selected();
      var layer := SelectedLayer();
      match layer {
        case None =>
        case Some(DefaultLayer) =>
          if fallback.Some? {
            PopDefault(if dflt.value.kind == Follow then TargetLost else Expired);
            Reselect(before);
          }
        case Some(CombatLayer) => FinishSelectedNoRecord(TargetLost);
        case Some(ControlLayer) =>
        case Some(_) => FinishSelectedNoRecord(Expired);
      }
    }

    method FinishSelectedNoRecord(reason: FinishReason)
      requires Sound()
      modifies this`events, this`blockedSeq, this`dflt, this`fallback, this`combat, this`claims, this`fate, commands
      ensures Sound() && View() == MotionModel.FinishSelected(old(View()), reason)
    {
      hide Ledger, Reselected, MotionModel.Selected, MotionModel.SelectedLayer,
           MotionModel.PopDefault, MotionModel.FinishCombat, MotionModel.FinishClaim, MotionModel.FinishCommand,
           MotionModel.FinishSelected;
      ghost var s := View();
      LayerHolds(s);
      var before := Selected();
      var layer := SelectedLayer();
      match layer {
        case None =>
          NothingToFinish(s, reason);
          return;
        case Some(DefaultLayer) => PopDefault(reason);
        case Some(CombatLayer) => FinishCombat(reason);
        case Some(ControlLayer) =>
          var best := SelectedClaimIndex();
          FinishClaim(best.value, reason);
        case Some(l) => FinishCommand(Index(l), reason);
      }
      FinishSelectedIs(s, reason, View());
      Reselect(before);
    }

    method FinishSelected(reason: FinishReason)
      requires Valid()
      modifies this, commands
      ensures Valid() && View() == Step(old(View()), DoFinishSelected(reason)) && Scoped() == old(Scoped())
        && drained == old(drained)
    {
      hide *;
      Parts();
      StepLifts(View(), DoFinishSelected(reason));
      ScopeBack(Scoped(), Normal);
      var tx := Begin(Normal);
      FinishSelectedNoRecord(reason);
      End(tx);
      Whole();
    }

    method CancelControl(kind: Kind)
      requires Valid()
      modifies this, commands
      ensures Valid() && View() == Step(old(View()), DoCancelControl(kind)) && Scoped() == old(Scoped())
        && drained == old(drained)
    {
      hide *;
      Parts();
      StepLifts(View(), DoCancelControl(kind));
      ScopeBack(Scoped(), Normal);
      var tx := Begin(Normal);
      CancelClaims(kind);
      End(tx);
      Whole();
    }

    method CancelClaims(kind: Kind)
      requires Sound()
      modifies this`events, this`blockedSeq, this`dflt, this`combat, this`claims, this`fate, commands
      ensures Sound() && View() == MotionModel.CancelControl(old(View()), kind)
    {
      hide Ledger, Reselected, MotionModel.Selected, MotionModel.FinishClaims;
      var before := Selected();
      FinishClaims(Some(kind), Cancelled);
      Reselect(before);
    }

    method Release(claim: nat) returns (held: bool)
      requires Valid()
      modifies this, commands
      ensures Valid() && View() == Step(old(View()), DoRelease(claim)) && Scoped() == old(Scoped())
        && drained == old(drained)
      ensures held <==> ClaimIndex(old(claims), claim) < |old(claims)|
    {
      hide *;
      Parts();
      StepLifts(View(), DoRelease(claim));
      ScopeBack(Scoped(), Normal);
      var tx := Begin(Normal);
      held := ReleaseBody(claim);
      End(tx);
      Whole();
    }

    method ReleaseBody(claim: nat) returns (held: bool)
      requires Sound()
      modifies this`events, this`blockedSeq, this`dflt, this`combat, this`claims, this`fate, commands
      ensures Sound() && View() == MotionModel.Release(old(View()), claim)
      ensures held <==> ClaimIndex(old(claims), claim) < |old(claims)|
    {
      hide Ledger, Reselected, MotionModel.Selected, MotionModel.FinishClaim;
      var before := Selected();
      var i := FindClaim(claim);
      if i < |claims| {
        FinishClaim(i, Cancelled);
        Reselect(before);
        return true;
      }
      held := false;
    }

    method FindClaim(claim: nat) returns (i: nat)
      ensures i == ClaimIndex(claims, claim)
    {
      i := 0;
      while i < |claims| && claims[i].claim != claim
        invariant 0 <= i <= |claims| && forall k {:trigger claims[k]} :: 0 <= k < i ==> claims[k].claim != claim
      {
        i := i + 1;
      }
      ghost var j := ClaimIndex(claims, claim);
    }

    method Expire(kind: Kind)
      requires Valid()
      modifies this, commands
      ensures Valid() && View() == Step(old(View()), DoExpire(kind)) && Scoped() == old(Scoped())
        && drained == old(drained)
    {
      hide *;
      Parts();
      StepLifts(View(), DoExpire(kind));
      ScopeBack(Scoped(), Normal);
      var tx := Begin(Normal);
      ExpireBody(kind);
      End(tx);
      Whole();
    }

    method ExpireBody(kind: Kind)
      requires Sound()
      modifies this`events, this`blockedSeq, this`dflt, this`fallback, this`combat, this`claims, this`fate, commands
      ensures Sound() && View() == MotionModel.Expire(old(View()), kind)
    {
      hide Ledger, Reselected, MotionModel.Selected, MotionModel.PopDefault, MotionModel.FinishCombat,
        MotionModel.FinishClaim,
           MotionModel.FinishCommand, MotionModel.NewestOfKind, MotionModel.HighestOfKind, MotionModel.Expire;
      ghost var s := View();
      ExpireCases(s, kind);
      var before := Selected();
      if LayerOf(kind) == ControlLayer {
        var best := NewestOfKind(kind);
        if best.Some? {
          FinishClaim(best.value, Expired);
          Reselect(before);
        }
        return;
      }
      var high := HighestOfKind(kind);
      if high.Some? {
        FinishCommand(high.value, Expired);
        Reselect(before);
      } else if combat.Some? && combat.value.kind == kind {
        FinishCombat(TargetLost);
        Reselect(before);
      } else if dflt.Some? && dflt.value.kind == kind && fallback.Some? {
        PopDefault(if kind == Follow then TargetLost else Expired);
        Reselect(before);
      }
    }

    /** A request, taken or turned away. */
    method Request(request: MoveRequest)
      requires Valid()
      modifies this, commands
      ensures Valid() && View() == Step(old(View()), DoRequest(request, Discarding(old(Scoped()))))
        && Scoped() == old(Scoped())
      ensures Discarding(old(Scoped())) ==> View() == old(View())
      ensures drained == old(drained)
    {
      hide *;
      Parts();
      StepLifts(View(), DoRequest(request, Discarding(Scoped())));
      RefusedSame(View(), request);
      ScopeBack(Scoped(), Normal);
      var tx := Begin(Normal);
      var discarding := InDiscardingTransaction();
      RequestBody(request, discarding);
      End(tx);
      Whole();
    }

    method InDiscardingTransaction() returns (b: bool)
      ensures b == Discarding(Scoped())
    {
      b := depth > 0 && outerKind != Normal;
    }

    method RequestBody(request: MoveRequest, discarding: bool)
      requires Sound() && ParkedUnder(View())
      modifies this`events, this`blockedSeq, this`dflt, this`fallback, this`combat, this`claims, this`fate, this`last,
               commands
      ensures Sound() && View() == MotionModel.Request(old(View()), request, discarding)
    {
      var layer := LayerOf(request.kind);
      if discarding || (layer == ControlLayer && request.claim == 0)
        || (layer == ControlLayer && commands[TAXI].Some?) {
        hide Ledger;
        return;
      }
      ghost var s := View();
      RequestIs(s, request, discarding);
      hide *;
      var before := Selected();
      var policy := PolicyOf(request.kind, request.resumeCombat);
      var held := TakeNumber(request, before);
      PlacedCases(View(), request, held);
      match layer {
        case DefaultLayer =>
          var empty := Selected();
          RequestDefault(held, policy, empty.None?);
        case CombatLayer => RequestCombat(held);
        case ControlLayer => RequestClaim(held);
        case _ => RequestCommand(held, Index(layer), policy);
      }
      Reselect(before);
    }
    /** The stamp of a request, and the self-expiring selection finished if another layer is asked for. */
    method TakeNumber(request: MoveRequest, before: Option<Held>) returns (held: Held)
      requires Sound() && ParkedUnder(View()) && before == MotionModel.Selected(View())
      requires LayerOf(request.kind) == ControlLayer ==> request.claim > 0
      modifies this`events, this`fate, this`last, commands
      ensures Sound() && ParkedUnder(View()) && New(View().last, fate)
      ensures View() == SelfExpired(old(View()), LayerOf(request.kind)).(last := old(View()).last + 1)
      ensures held == RequestHeld(old(View()), request) && HeldFits(held, request, View().last)
    {
      hide *;
      SoundShape();
      ghost var s := View();
      var layer := LayerOf(request.kind);
      SelfExpiredCases(s, layer);
      NumberFits(s, request);
      held := StampNew(request.kind, request.id, if layer == ControlLayer then request.claim else 0);
      ghost var f0 := fate;
      if before.Some? && SelfExpiring(before.value.kind) && LayerOf(before.value.kind) != layer {
        var i := Index(LayerOf(before.value.kind));
        FinishIgnoresLast(s, i, Cancelled);
        FinishCommand(i, Cancelled);
        StillNew(f0, fate, s.last + 1);
      }
    }

    lemma SoundShape()
      requires Sound()
      ensures Shaped(View())
    {
    }


    method StampNew(kind: Kind, id: nat, claim: nat) returns (h: Held)
      requires Sound()
      modifies this`last, this`fate
      ensures Sound() && h == Stamped(old(View()), kind, id, claim)
        && View() == old(View()).(last := old(View()).last + 1)
      ensures New(View().last, fate)
    {
      hide Ledger;
      NumberTaken(View(), fate);
      ghost var k := last + 1;
      h := Stamp(kind, id, claim);
      fate := fate[k := NeverHeld];
    }

    method RequestDefault(held: Held, policy: Policy, empty: bool)
      requires Sound() && ParkedUnder(View()) && New(View().last, fate) && held.arrival == View().last
      modifies this`events, this`dflt, this`fallback, this`combat, this`fate, commands
      ensures Sound() && View() == MotionModel.RequestDefault(old(View()), held, policy, empty)
    {
      if held.kind == Idle && !empty {
        IdleCommand(held);
        hide Ledger, MotionModel.FinishCommand;
        return;
      }
      PushDefault(held);
      Runs.RequestDefaultIs(old(View()), held, policy, empty);
      hide Ledger, MotionModel.FinishCommand, MotionModel.FinishCombat, Pushed, MotionModel.RequestDefault;
      if policy == Override {
        FinishCombat(Overridden);
        FinishCommand(SCRIPTED, Overridden);
        FinishCommand(DISTRACT, Overridden);
      }
    }

    /** Idle over something selected is a scripted command, unless one is there already. */
    method IdleCommand(held: Held)
      requires Sound() && New(View().last, fate) && held.arrival == View().last
      modifies this`events, this`fate, commands
      ensures Sound()
      ensures var s := old(View()); var scripted := s.commands[SCRIPTED];
        View() == if scripted.Some? && scripted.value.kind == Idle then s
                  else var t := MotionModel.FinishCommand(s, SCRIPTED,
                      Superseded); t.(commands := t.commands[SCRIPTED := Some(held)])
    {
      hide Ledger, MotionModel.FinishCommand, NewKept;
      if commands[SCRIPTED].Some? && commands[SCRIPTED].value.kind == Idle { return; }
      ghost var f0, k := fate, View().last;
      FinishLast(View(), SCRIPTED, Superseded);
      FinishCommand(SCRIPTED, Superseded);
      NewStays(f0, fate, k);
      CommandPut(View(), fate, SCRIPTED, held);
      PutCommand(SCRIPTED, held);
      fate := fate[held.arrival := InCommand(SCRIPTED)];
    }

    /** The default is parked unless one is parked already, and a new one is on top. */
    method PushDefault(held: Held)
      requires Sound() && ParkedUnder(View()) && New(View().last, fate) && held.arrival == View().last
      modifies this`events, this`dflt, this`fallback, this`fate
      ensures Sound() && View() == Pushed(old(View()), held)
    {
      hide Ledger, Swapped;
      ghost var f := DefaultPushed(View(), fate, held);
      var parked := if dflt.Some? && fallback.None? then dflt else fallback;
      LogSwap();
      fallback := parked;
      dflt := Some(held);
      fate := f;
    }

    method RequestCombat(held: Held)
      requires Sound() && New(View().last, fate) && held.arrival == View().last
      modifies this`combat, this`fate
      ensures Sound() && View() == MotionModel.RequestCombat(old(View()), held)
    {
      hide Ledger;
      ghost var f := RequestCombatKeeps(View(), fate, held);
      if combat.Some? {
        combat := Some(combat.value.(id := held.id, arrival := held.arrival));
      } else {
        combat := Some(held);
      }
      fate := f;
    }

    method RequestClaim(held: Held)
      requires Sound() && New(View().last, fate) && held.arrival == View().last && held.claim > 0
        && LayerOf(held.kind) == ControlLayer
      modifies this`claims, this`fate
      ensures Sound() && View() == MotionModel.RequestClaim(old(View()), held)
    {
      hide Ledger;
      ghost var f := RequestClaimKeeps(View(), fate, held);
      var i := FindClaim(held.claim);
      if i < |claims| {
        claims := claims[i := claims[i].(kind := held.kind, id := held.id, arrival := held.arrival)];
      } else {
        claims := claims + [held];
      }
      fate := f;
    }

    method RequestCommand(held: Held, i: nat, policy: Policy)
      requires Sound() && New(View().last, fate) && held.arrival == View().last
        && (i == 2 || i == 3 || i == 5 || i == 6)
      modifies this`events, this`combat, this`fate, commands
      ensures Sound() && View() == MotionModel.RequestCommand(old(View()), held, i, policy)
    {
      hide Ledger, MotionModel.FinishCommand, MotionModel.FinishCombat, OverrideBelow, NewKept;
      ghost var s, f0 := View(), fate;
      FinishLast(s, i, Superseded);
      FinishCommand(i, Superseded);
      NewStays(f0, fate, s.last);
      if policy == Override {
        OverrideLower(i);
      }
      CommandPut(View(), fate, i, held);
      PutCommand(i, held);
      fate := fate[held.arrival := InCommand(i)];
    }

    /** What a command of the override policy does below its own layer: the claims are left alone. */
    method OverrideLower(i: nat)
      requires Sound() && New(View().last, fate) && i < LAYERS
      modifies this`events, this`combat, this`fate, commands
      ensures Sound() && View() == MotionModel.FinishCombat(OverrideBelow(old(View()), i, SCRIPTED), Overridden)
      ensures View().commands[i] == old(View()).commands[i] && View().last == old(View()).last && New(View().last, fate)
    {
      hide Ledger, MotionModel.FinishCommand;
      ghost var s := View();
      OverrideLeaves(s, i, SCRIPTED);
      ghost var goal := OverrideBelow(s, i, SCRIPTED);
      var lower := SCRIPTED;
      while lower < i
        invariant SCRIPTED <= lower && Sound() && OverrideBelow(View(), i, lower) == goal && View().last == s.last
        invariant New(s.last, fate)
      {
        if lower != CONTROL {
          ghost var f0 := fate;
          FinishLast(View(), lower, Overridden);
          FinishCommand(lower, Overridden);
          NewStays(f0, fate, s.last);
        }
        lower := lower + 1;
      }
      ghost var f0 := fate;
      FinishCombat(Overridden);
      NewStays(f0, fate, s.last);
    }

    method Die()
      requires Valid()
      modifies this, commands, mobility
      ensures Valid() && View() == Step(old(View()), DoDie) && drained == old(drained)
      ensures Scoped() == if old(Scoped()).depth == 0 then old(Scoped()) else Scope(old(Scoped()).depth, Death)
    {
      hide *;
      Parts();
      StepLifts(View(), DoDie);
      ScopeBack(Scoped(), Death);
      var tx := Begin(Death);
      DieBody();
      End(tx);
      Whole();
    }

    method DieBody()
      requires Sound()
      modifies this`events, this`blockedSeq, this`dflt, this`fallback, this`combat, this`claims, this`fate, commands,
               mobility
      ensures Sound() && View() == MotionModel.Die(old(View()))
    {
      hide Ledger, MotionModel.DropDomain, MotionModel.Die, SlotsEnded, CommandsEnded;
      DieIs(View());
      EndSlots();
      EndCommands();
      DropSources();
    }

    method DropSources()
      requires Sound()
      modifies this`blockedSeq, mobility
      ensures Sound()
      ensures var m := MotionModel.DropDomain(MotionModel.DropDomain(old(View()).mobility, AURA), SCRIPT);
        View() == old(View()).(mobility := if DEATH_SOURCE in m.dead then m else m.(dead := m.dead + [DEATH_SOURCE]),
            blocked := 0)
    {
      hide Ledger, MotionModel.DropDomain;
      ghost var t := View();
      mobility.DropDomain(AURA);
      mobility.DropDomain(SCRIPT);
      var edge := mobility.Inhibit(Dead, DEATH_SOURCE);
      blockedSeq := 0;
      BlockedIrrelevant(t, fate, 0, mobility.sources);
    }

    method EndSlots()
      requires Sound()
      modifies this`events, this`dflt, this`fallback, this`combat, this`fate
      ensures Sound() && View() == SlotsEnded(old(View()))
    {
      hide Ledger, MotionModel.FinishDefault, MotionModel.FinishFallback, MotionModel.FinishCombat;
      FinishDefault(Died);
      FinishFallback(Died);
      FinishCombat(Died);
    }

    method EndCommands()
      requires Sound()
      modifies this`events, this`claims, this`fate, commands
      ensures Sound() && View() == CommandsEnded(old(View()))
    {
      hide Ledger, MotionModel.FinishCommand, MotionModel.FinishClaims;
      ghost var s := View();
      ghost var two := MotionModel.FinishCommand(s, 2, Died);
      ghost var three := MotionModel.FinishCommand(two, 3, Died);
      ghost var four := MotionModel.FinishClaims(three, None, Died);
      ghost var five := MotionModel.FinishCommand(four, 5, Died);
      var i := SCRIPTED;
      while i < LAYERS
        invariant SCRIPTED <= i <= LAYERS && Sound()
        invariant View() == if i == 2 then s else if i == 3 then two else if i == 4 then three else if i == 5 then four
                            else if i == 6 then five else MotionModel.FinishCommand(five, 6, Died)
      {
        if i == CONTROL {
          FinishClaims(None, Died);
        } else {
          FinishCommand(i, Died);
        }
        i := i + 1;
      }
    }

    method Inhibit(what: Inhibition, source: nat) returns (edge: bool)
      requires Valid()
      modifies this, mobility
      ensures Valid() && View() == Step(old(View()), DoInhibit(what, source)) && Scoped() == old(Scoped())
        && drained == old(drained)
    {
      hide *;
      Parts();
      StepLifts(View(), DoInhibit(what, source));
      ScopeBack(Scoped(), Normal);
      var tx := Begin(Normal);
      edge := InhibitBody(what, source);
      End(tx);
      Whole();
    }

    method InhibitBody(what: Inhibition, source: nat) returns (edge: bool)
      requires Sound() && Runs.Settled(View())
      modifies this`events, this`blockedSeq, mobility
      ensures Sound() && View() == MotionModel.Inhibit(old(View()), what, source)
    {
      hide Ledger, Reconciled, Runs.Settled;
      ghost var s := View();
      InhibitKeeps(s, fate, what, source);
      edge := mobility.Inhibit(what, source);
      if edge {
        ReconcileBlock();
      }
    }

    method Uninhibit(what: Inhibition, source: nat) returns (edge: bool)
      requires Valid()
      modifies this, mobility
      ensures Valid() && View() == Step(old(View()), DoUninhibit(what, source)) && Scoped() == old(Scoped())
        && drained == old(drained)
    {
      hide *;
      Parts();
      StepLifts(View(), DoUninhibit(what, source));
      ScopeBack(Scoped(), Normal);
      var tx := Begin(Normal);
      edge := UninhibitBody(what, source);
      End(tx);
      Whole();
    }

    method UninhibitBody(what: Inhibition, source: nat) returns (edge: bool)
      requires Sound()
      modifies this`events, this`blockedSeq, mobility
      ensures Sound() && View() == MotionModel.Uninhibit(old(View()), what, source)
    {
      hide Ledger, Reconciled;
      ghost var s := View();
      InhibitKeeps(s, fate, what, source);
      edge := mobility.Uninhibit(what, source);
      if edge {
        ReconcileBlock();
      }
    }

    /** Takes the queued events; the model does not change. */
    method DrainEvents() returns (out: seq<Event>)
      requires Valid()
      modifies this`events, this`drained
      ensures Valid() && View() == old(View()) && out == old(events) && events == [] && drained == old(drained) + out
    {
      out := events;
      drained := drained + events;
      events := [];
      assert drained + events == old(drained + events);
    }

    method NewestOfKind(kind: Kind) returns (best: Option<nat>)
      ensures best == MotionModel.NewestOfKind(claims, kind, |claims|)
    {
      best := None;
      var i := 0;
      while i < |claims|
        invariant 0 <= i <= |claims| && best == MotionModel.NewestOfKind(claims, kind, i)
      {
        if claims[i].kind == kind && (best.None? || claims[i].arrival > claims[best.value].arrival) { best := Some(i); }
        i := i + 1;
      }
    }

    method HighestOfKind(kind: Kind) returns (high: Option<nat>)
      requires Built()
      ensures high == MotionModel.HighestOfKind(commands[..], kind, LAYERS)
    {
      ghost var c := commands[..];
      var i := LAYERS;
      while i > SCRIPTED
        invariant SCRIPTED <= i <= LAYERS
          && MotionModel.HighestOfKind(c, kind, LAYERS) == MotionModel.HighestOfKind(c, kind, i)
      {
        assert commands[i - 1] == c[i - 1];
        if commands[i - 1].Some? && commands[i - 1].value.kind == kind { return Some(i - 1); }
        i := i - 1;
      }
      high := None;
    }
  }

  /** The state with a new default and nothing parked. */
  ghost function Installed(s: State, kind: Kind): (t: State)
    ensures t.commands == s.commands
  {
    Swapped(s).(dflt := Some(Stamped(s, kind, 0, 0)), fallback := None, last := s.last + 1)
  }

  lemma InstalledIs(s: State, kind: Kind)
    requires Shaped(s)
    ensures Shaped(Installed(s, kind))
      && InstallDefault(s, kind) == Reselected(Installed(s, kind), MotionModel.Selected(s))
  {
    hide Reselected, MotionModel.Selected;
  }

  lemma InstalledKeeps(s: State, fate: Fates, kind: Kind) returns (f: Fates)
    requires Ledger(s, fate)
    ensures Ledger(Installed(s, kind), f)
  {
    var t := Swapped(s).(dflt := None, fallback := None);
    var h := Stamped(s, kind, 0, 0);
    assert t.dflt.None? && t.last == s.last && h.arrival == t.last + 1;
    assert Installed(s, kind) == t.(dflt := Some(h), last := t.last + 1);
    hide Ledger, Swapped, Stamped, Installed;
    f := BothOut(s, fate);
    f := FreshDefault(t, f, h);
  }

  ghost function SlotsEnded(s: State): (r: State)
    requires Shaped(s)
    ensures Shaped(r)
  {
    MotionModel.FinishCombat(MotionModel.FinishFallback(MotionModel.FinishDefault(s, Died), Died), Died)
  }

  ghost function CommandsEnded(s: State): (r: State)
    requires Shaped(s)
    ensures Shaped(r)
  {
    var e := MotionModel.FinishCommand(MotionModel.FinishCommand(s, 2, Died), 3, Died);
    MotionModel.FinishCommand(MotionModel.FinishCommand(MotionModel.FinishClaims(e, None, Died), 5, Died), 6, Died)
  }

  lemma DieIs(s: State)
    requires Shaped(s)
    ensures var m := DropDomain(DropDomain(s.mobility, AURA), SCRIPT);
      var t := CommandsEnded(SlotsEnded(s));
      && t.mobility == s.mobility
      && Die(s) == t.(mobility := if DEATH_SOURCE in m.dead then m else m.(dead := m.dead + [DEATH_SOURCE]),
          blocked := 0)
  {
    Runs.LowerEnded(s);
    Runs.UpperEnded(MotionModel.FinishCommand(MotionModel.FinishCommand(SlotsEnded(s), 2, Died), 3, Died));
    hide MotionModel.FinishCommand, MotionModel.FinishClaims, MotionModel.FinishCombat, MotionModel.FinishFallback,
      MotionModel.FinishDefault, DropDomain;
  }

  /** The number was handed out and nothing has held it yet. */
  ghost predicate New(k: nat, fate: Fates) {
    k in fate && fate[k] == NeverHeld
  }

  ghost predicate HeldFits(held: Held, request: MoveRequest, last: nat) {
    && held.kind == request.kind && held.arrival == last
    && (LayerOf(request.kind) == ControlLayer ==> held.claim > 0)
  }

  lemma StillNew(fate: Fates, fate': Fates, k: nat)
    requires NewKept(fate, fate') && New(k, fate)
    ensures New(k, fate')
  {
  }

  /** The number and the defaults are as they were, but for the number taken. */
  lemma SelfExpiredCases(s: State, layer: Layer)
    requires Shaped(s)
    ensures var before := MotionModel.Selected(s);
      SelfExpired(s, layer) ==
      if before.Some? && SelfExpiring(before.value.kind) && LayerOf(before.value.kind) != layer
      then MotionModel.FinishCommand(s, MotionModel.Index(LayerOf(before.value.kind)), Cancelled)
      else s
    ensures ParkedUnder(s) ==> ParkedUnder(SelfExpired(s, layer).(last := s.last + 1))
  {
  }

  lemma NumberFits(s: State, request: MoveRequest)
    requires LayerOf(request.kind) == ControlLayer ==> request.claim > 0
    ensures var held := Stamped(s, request.kind, request.id,
                                if LayerOf(request.kind) == ControlLayer then request.claim else 0);
      held == RequestHeld(s, request) && HeldFits(held, request, s.last + 1)
  {
  }

  lemma FinishIgnoresLast(s: State, i: nat, reason: FinishReason)
    requires Shaped(s) && i < LAYERS
    ensures MotionModel.FinishCommand(s.(last := s.last + 1), i, reason)
      == MotionModel.FinishCommand(s, i, reason).(last := s.last + 1)
    ensures MotionModel.FinishCommand(s.(last := s.last + 1), i, reason).last == s.last + 1
  {
  }

  lemma FinishLast(s: State, i: nat, reason: FinishReason)
    requires Shaped(s) && i < LAYERS
    ensures MotionModel.FinishCommand(s, i, reason).last == s.last
      && MotionModel.FinishCommand(s, i, reason).commands[i].None?
  {
  }

  lemma RefusedSame(s: State, request: MoveRequest)
    requires Shaped(s)
    ensures Request(s, request, true) == s
  {
  }

  lemma PlacedCases(t: State, request: MoveRequest, held: Held)
    requires Shaped(t) && HeldFits(held, request, t.last)
    ensures LayerOf(held.kind) == LayerOf(request.kind) && held.arrival == t.last
    ensures LayerOf(request.kind) == DefaultLayer ==>
      Placed(t, request, held)
        == RequestDefault(t, held, PolicyOf(request.kind, request.resumeCombat), MotionModel.Selected(t).None?)
    ensures LayerOf(request.kind) == CombatLayer ==> Placed(t, request, held) == RequestCombat(t, held)
    ensures LayerOf(request.kind) == ControlLayer ==>
      Placed(t, request, held) == RequestClaim(t, held) && held.claim > 0
    ensures LayerOf(request.kind) !in {DefaultLayer, CombatLayer, ControlLayer} ==>
      var i := Index(LayerOf(request.kind));
      Placed(t, request, held) == RequestCommand(t, held, i, PolicyOf(request.kind, request.resumeCombat))
        && (i == 2 || i == 3 || i == 5 || i == 6)
  {
    hide RequestDefault, RequestCombat, RequestClaim, RequestCommand, MotionModel.Selected;
  }

  /** Outside every transaction the kind is Normal. */
  predicate ScopeOk(s: Scope) {
    s.depth == 0 ==> s.outer == Normal
  }

  /** A guard other than a death's leaves the scope as it found it. */
  lemma ScopeBack(s: Scope, kind: TransactionKind)
    requires ScopeOk(s)
    ensures Opened(s, kind).depth > 0
    ensures kind != Death ==> Closed(Opened(s, kind), GuardOf(s, kind)) == s
    ensures Closed(Opened(s, Death), GuardOf(s, Death)) == if s.depth == 0 then s else Scope(s.depth, Death)
    ensures Discarding(Opened(s, Normal)) == Discarding(s)
    ensures ScopeOk(Closed(Opened(s, kind), GuardOf(s, kind)))
    ensures Normal != Death && ClearAll != Death && TransactionKind.Clear != Death
  {
  }

  /** What every operation leaves in order, and its own function. */
  lemma StepLifts(s: State, op: Op)
    requires ParkedUnder(s) && Runs.Settled(s)
    ensures Shaped(s) && ParkedUnder(Step(s, op)) && Runs.Settled(Step(s, op))
    ensures op.DoInstallDefault? ==> Step(s, op) == InstallDefault(s, op.kind)
    ensures op.DoRequest? ==> Step(s, op) == Request(s, op.request, op.discarding)
    ensures op.DoClear? ==> Step(s, op) == ClearOp(s, op.all)
    ensures op.DoExpireSelected? ==> Step(s, op) == ExpireSelected(s)
    ensures op.DoExpire? ==> Step(s, op) == Expire(s, op.expired)
    ensures op.DoFinishSelected? ==> Step(s, op) == FinishSelected(s, op.reason)
    ensures op.DoCancelControl? ==> Step(s, op) == CancelControl(s, op.cancelled)
    ensures op.DoRelease? ==> Step(s, op) == Release(s, op.claim)
    ensures op.DoNotifyCombat? ==> Step(s, op) == NotifyCombat(s)
    ensures op.DoDie? ==> Step(s, op) == Die(s)
    ensures op.DoInhibit? ==> Step(s, op) == Inhibit(s, op.what, op.source)
    ensures op.DoUninhibit? ==> Step(s, op) == Uninhibit(s, op.whatEnds, op.sourceEnds)
  {
    Runs.SettledShaped(s);
    Runs.StepSettles(s, op);
    Runs.StepParks(s, op);
    hide ParkedUnder, Runs.Settled;
  }

  /** A selected layer holds something. */
  /** One of the layers, or nothing, as the kind is found. */
  lemma ExpireCases(s: State, kind: Kind)
    requires Shaped(s)
    ensures var best, high := MotionModel.NewestOfKind(s.claims, kind, |s.claims|),
                              MotionModel.HighestOfKind(s.commands, kind, LAYERS);
      MotionModel.Expire(s, kind) ==
      if MotionModel.LayerOf(kind) == ControlLayer then
        if best.None? then s
        else Reselected(MotionModel.FinishClaim(s, best.value, Expired), MotionModel.Selected(s))
      else if high.Some? then
        Reselected(MotionModel.FinishCommand(s, high.value, Expired), MotionModel.Selected(s))
      else if s.combat.Some? && s.combat.value.kind == kind then
        Reselected(MotionModel.FinishCombat(s, TargetLost), MotionModel.Selected(s))
      else if s.dflt.Some? && s.dflt.value.kind == kind && s.fallback.Some? then
        Reselected(MotionModel.PopDefault(s, if kind == Follow then TargetLost else Expired), MotionModel.Selected(s))
      else s
  {
  }

  lemma NothingToFinish(s: State, reason: FinishReason)
    requires Shaped(s) && MotionModel.SelectedLayer(s).None?
    ensures MotionModel.FinishSelected(s, reason) == s
  {
  }

  lemma FinishSelectedIs(s: State, reason: FinishReason, t: State)
    requires Shaped(s) && Shaped(t) && MotionModel.SelectedLayer(s).Some?
    requires t == match MotionModel.SelectedLayer(s).value
                  case DefaultLayer => MotionModel.PopDefault(s, reason)
                  case CombatLayer => MotionModel.FinishCombat(s, reason)
                  case ControlLayer => MotionModel.FinishClaim(s, BestClaim(s.claims, |s.claims|), reason)
                  case l => MotionModel.FinishCommand(s, MotionModel.Index(l), reason)
    ensures MotionModel.FinishSelected(s, reason) == Reselected(t, MotionModel.Selected(s))
  {
  }

  lemma LayerHolds(s: State)
    requires Shaped(s)
    ensures MotionModel.SelectedLayer(s) == Some(DefaultLayer) ==> s.dflt.Some?
    ensures MotionModel.SelectedLayer(s) == Some(ControlLayer) ==> s.claims != []
  {
  }

  // ----- the claims in order -----------------------------------------------------------------------------------------

  ghost predicate Permuted(a: seq<Held>, b: seq<Held>) {
    |a| == |b| && multiset(a) == multiset(b)
  }

  /** No entry among the first n outranks one before it. */
  ghost predicate Ranked(s: seq<Held>, n: int) {
    0 <= n <= |s| && forall i, j {:trigger s[i], s[j]} :: 0 <= i < j < n ==> !Outranks(s[j], s[i])
  }

  /** Entry i moved down to place j. */
  ghost function Moved(c: seq<Held>, i: nat, j: nat): (r: seq<Held>)
    requires j <= i < |c|
    ensures |r| == |c|
  {
    c[..j] + [c[i]] + c[j..i] + c[i + 1..]
  }

  lemma MovedIs(c: seq<Held>, m: seq<Held>, i: nat, j: nat)
    requires j <= i < |c| == |m|
    requires forall k {:trigger m[k]} :: 0 <= k < |m| ==>
      m[k] == if k == j then c[i] else if j < k <= i then c[k - 1] else c[k]
    ensures m == Moved(c, i, j)
  {
  }

  lemma MovedPermutes(c: seq<Held>, i: nat, j: nat)
    requires j <= i < |c|
    ensures Permuted(Moved(c, i, j), c)
  {
    assert c == c[..j] + c[j..i] + [c[i]] + c[i + 1..];
  }

  lemma RankTransitive(a: Held, b: Held, c: Held)
    requires !Outranks(b, a) && !Outranks(c, b)
    ensures !Outranks(c, a)
  {
  }

  /** A place before j stays ahead of the entry inserted at j. */
  lemma StaysAhead(c: seq<Held>, i: nat, j: nat, p: nat)
    requires j <= i < |c| && Ranked(c, i) && p < j && !Outranks(c[i], c[j - 1])
    ensures !Outranks(c[i], c[p])
  {
    if p < j - 1 { RankTransitive(c[p], c[j - 1], c[i]); }
  }

  lemma InsertedInOrder(c: seq<Held>, i: nat, j: nat)
    requires j <= i < |c| && Ranked(c, i)
    requires j > 0 ==> !Outranks(c[i], c[j - 1])
    requires forall k {:trigger c[k]} :: j <= k < i ==> Outranks(c[i], c[k])
    ensures Permuted(Moved(c, i, j), c) && Ranked(Moved(c, i, j), i + 1)
  {
    MovedPermutes(c, i, j);
    var m := Moved(c, i, j);
    hide Permuted;
    forall a, b {:trigger m[a], m[b]} | 0 <= a < b < i + 1 ensures !Outranks(m[b], m[a]) {
      var p := if a < j then a else if a == j then i else a - 1;
      var q := if b < j then b else if b == j then i else b - 1;
      assert m[a] == c[p] && m[b] == c[q];
      if q == i {
        StaysAhead(c, i, j, p);
      } else if p == i {
        assert Outranks(c[i], c[q]);
      } else {
        assert !Outranks(c[q], c[p]);
      }
    }
  }

  lemma NothingStarted(s: State)
    requires Shaped(s) && MotionModel.Selected(s).None?
    ensures Started(s) == s
  {
  }

  /** Where the ledger says the selected entry is. */
  ghost function PlaceOf(layer: Layer): Fate {
    match layer
    case DefaultLayer => InDefault
    case CombatLayer => InCombat
    case ControlLayer => InClaims
    case l => InCommand(Index(l))
  }

  lemma SelectedPlace(s: State, f: Fates)
    requires Shaped(s) && Ledger(s, f) && MotionModel.SelectedLayer(s).Some?
    ensures var a := MotionModel.Selected(s).value.arrival;
      a in f && f[a] == PlaceOf(MotionModel.SelectedLayer(s).value)
  {
    hide LogFates, Numbered;
  }

  lemma OnlyDefault(s: State, f: Fates)
    requires Ledger(s, f) && s.dflt.Some?
    ensures s.dflt.value.arrival in f && f[s.dflt.value.arrival] == InDefault
  {
    hide LogFates, Numbered, CommandFates, ClaimFates;
  }

  lemma OnlyCombat(s: State, f: Fates)
    requires Ledger(s, f) && s.combat.Some?
    ensures s.combat.value.arrival in f && f[s.combat.value.arrival] == InCombat
  {
    hide LogFates, Numbered, CommandFates, ClaimFates;
  }

  lemma OnlyCommand(s: State, f: Fates, i: nat)
    requires Ledger(s, f) && i < |s.commands| && s.commands[i].Some?
    ensures s.commands[i].value.arrival in f && f[s.commands[i].value.arrival] == InCommand(i)
  {
    hide LogFates, Numbered, SlotFate, ClaimFates;
  }

  lemma OneClaim(s: State, f: Fates, b: nat)
    requires Ledger(s, f) && b < |s.claims|
    ensures forall i {:trigger s.claims[i]} :: 0 <= i < |s.claims| && s.claims[i].arrival == s.claims[b].arrival ==>
      i == b
  {
    hide LogFates, Numbered, SlotFate, CommandFates;
  }
}
