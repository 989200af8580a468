/**
 Conservation in the movement arbiter over every run. An entry that leaves does so with an event, or by an
 update that carries it on under the next number, or as the parked default that a new default drops, which
 was logged when it was parked; a number is held through one unbroken stretch of the run; and an entry gets
 a second ending event exactly when it was once parked and the branch that ends its slot is taken.
 */
module MotionDepartures {
  import opened MotionModel
  import opened MotionLedger
  import opened MotionRuns
  import opened MotionTurns

  /** The log says this of entry k. */
  ghost predicate Ever(s: State, what: EventKind, k: nat) {
    exists i :: 0 <= i < |s.log| && s.log[i].what == what && s.log[i].arrival == k
  }

  lemma EverIs(s: State, r: State, what: EventKind, k: nat)
    requires s.log <= r.log
    ensures Ever(r, what, k) <==> Ever(s, what, k) || Logs(s, r, what, k)
  {
    if Ever(s, what, k) {
      var i :| 0 <= i < |s.log| && s.log[i].what == what && s.log[i].arrival == k;
      assert r.log[i] == s.log[i];
    }
    if Ever(r, what, k) {
      var i :| 0 <= i < |r.log| && r.log[i].what == what && r.log[i].arrival == k;
      assert i < |s.log| ==> s.log[i] == r.log[i];
    }
  }

  // ----- what the ledger says of numbers -----------------------------------------------------------------------

  /** A number has a place for a fate exactly when it is held there. */
  lemma HeldFates(s: State, fate: Fates, k: nat)
    requires Ledger(s, fate)
    ensures Number(s.dflt) == Some(k) <==> k in fate && fate[k] == InDefault
    ensures Number(s.fallback) == Some(k) <==> k in fate && fate[k] == InFallback
    ensures Above(s, k) <==> k in fate && (fate[k] == InCombat || fate[k].InCommand? || fate[k] == InClaims)
    ensures k in fate <==> 1 <= k <= s.last
  {
    if k in fate && fate[k].InCommand? { assert Number(s.commands[fate[k].i]) == Some(k); }
    if j :| 0 <= j < |s.commands| && Number(s.commands[j]) == Some(k) { assert s.commands[j].Some?; }
  }

  lemma GoneFates(s: State, fate: Fates, k: nat)
    requires Ledger(s, fate)
    ensures Ever(s, Finished, k) <==> k in fate && fate[k] == Gone
    ensures k in fate && fate[k] == SwappedOut ==> Ever(s, DefaultSwapped, k)
    ensures Number(s.fallback) == Some(k) ==> Ever(s, DefaultSwapped, k)
  {
  }

  /** Numbers held are handed out, are in one place only, and have not been finished. */
  lemma HeldOnce(ops: seq<Op>, k: nat)
    ensures var s := Run(ops); Holds(s, k) ==> 1 <= k <= s.last && !Ever(s, Finished, k)
    ensures var s := Run(ops); !(Number(s.dflt) == Some(k) && Number(s.fallback) == Some(k))
    ensures var s := Run(ops); Above(s, k) ==> Number(s.dflt) != Some(k) && Number(s.fallback) != Some(k)
    ensures var s := Run(ops); Ever(s, Finished, k) ==> 1 <= k <= s.last
    ensures var s := Run(ops); Number(s.fallback) == Some(k) ==> Ever(s, DefaultSwapped, k)
  {
    var fate := RunIsSafe(ops);
    hide *;
    HeldFates(Run(ops), fate, k);
    GoneFates(Run(ops), fate, k);
    HoldsIs(Run(ops), k);
  }

  lemma HoldsIs(s: State, k: nat)
    ensures Holds(s, k) <==> Number(s.dflt) == Some(k) || Number(s.fallback) == Some(k) || Above(s, k)
  {
  }

  // ----- one step of a run ---------------------------------------------------------------------------------------

  lemma StepOf(ops: seq<Op>, op: Op)
    ensures Turned(Run(ops), Run(ops + [op]), MoveOf(Run(ops), op), UpdatedFrom(Run(ops), op))
  {
    hide *;
    RunMore(ops, op);
    StepTurned(Run(ops), op);
  }

  /** The ways in which number k may leave in one operation. */
  ghost predicate Leaves(s: State, op: Op, r: State, k: nat)
    requires Shaped(s)
  {
    || Logs(s, r, Finished, k)
    || (Logs(s, r, DefaultSwapped, k) && SwapsDefault(MoveOf(s, op)))
    || (UpdatedFrom(s, op) == Some(k) && r.last == s.last + 1 && Holds(r, r.last))
    || (op.DoInstallDefault? && Number(s.fallback) == Some(k) && Ever(s, DefaultSwapped, k))
  }

  lemma TurnedLeaves(s: State, op: Op, r: State, k: nat)
    requires Shaped(s) && Turned(s, r, MoveOf(s, op), UpdatedFrom(s, op)) && Holds(s, k) && !Holds(r, k)
    requires Number(s.fallback) == Some(k) ==> Ever(s, DefaultSwapped, k)
    ensures Leaves(s, op, r, k)
  {
    hide Above, Logs, Ever, EventFits, UpdatedFrom;
    if Number(s.fallback) == Some(k) { MoveIsReplace(s, op); }
  }

  lemma MoveIsReplace(s: State, op: Op)
    requires Shaped(s)
    ensures MoveOf(s, op) == Replace ==> op.DoInstallDefault?
  {
  }

  /**
   Conservation, step by step: a number held before an operation and not after it was finished or swapped
   out with an event, or goes on as the next number, or was the parked default that a new default drops,
   logged when it was parked.
   */
  lemma DeparturesLogged(ops: seq<Op>, op: Op, k: nat)
    requires Holds(Run(ops), k) && !Holds(Run(ops + [op]), k)
    ensures Leaves(Run(ops), op, Run(ops + [op]), k)
  {
    hide *;
    HeldOnce(ops, k);
    StepOf(ops, op);
    TurnedLeaves(Run(ops), op, Run(ops + [op]), k);
  }

  // ----- a number's stretch of the run ------------------------------------------------------------------------------

  ghost predicate HeldAt(ops: seq<Op>, m: nat, k: nat) {
    m <= |ops| && Holds(Run(ops[..m]), k)
  }

  lemma PrefixStep(ops: seq<Op>, n: nat)
    requires n < |ops|
    ensures ops[..n] + [ops[n]] == ops[..n + 1]
  {
  }

  lemma TurnedNumbers(s: State, r: State, move: Move, from: Option<nat>, k: nat)
    requires Turned(s, r, move, from)
    ensures s.last <= r.last <= s.last + 1 && s.log <= r.log
    ensures Holds(r, k) ==> Holds(s, k) || k == r.last == s.last + 1
    ensures Logs(s, r, Finished, k) || Logs(s, r, DefaultSwapped, k) ==> Holds(s, k)
  {
    hide Above;
  }

  lemma {:induction false} LastGrows(ops: seq<Op>, m: nat, n: nat)
    requires m <= n <= |ops|
    ensures Run(ops[..m]).last <= Run(ops[..n]).last
    ensures Run(ops[..m]).log <= Run(ops[..n]).log
    decreases n - m
  {
    hide *;
    if m < n {
      LastGrows(ops, m, n - 1);
      PrefixStep(ops, n - 1);
      StepOf(ops[..n - 1], ops[n - 1]);
      TurnedNumbers(Run(ops[..n - 1]), Run(ops[..n]), MoveOf(Run(ops[..n - 1]), ops[n - 1]),
          UpdatedFrom(Run(ops[..n - 1]),
              ops[n - 1]), 0);
    }
  }

  /** A number is held through one unbroken stretch of the run: once gone it never comes back. */
  lemma {:induction false} HeldThroughout(ops: seq<Op>, m: nat, j: nat, n: nat, k: nat)
    requires m <= j <= n && HeldAt(ops, m, k) && HeldAt(ops, n, k)
    ensures HeldAt(ops, j, k)
    decreases n - j
  {
    hide HeldAt, Run, Holds;
    if j < n {
      HeldAtIs(ops, n, k);
      HeldAtIs(ops, m, k);
      HeldThroughout(ops, m, j + 1, n, k);
      HeldAtIs(ops, j + 1, k);
      PrefixStep(ops, j);
      StepOf(ops[..j], ops[j]);
      var s, r := Run(ops[..j]), Run(ops[..j + 1]);
      TurnedNumbers(s, r, MoveOf(s, ops[j]), UpdatedFrom(s, ops[j]), k);
      HeldOnce(ops[..m], k);
      LastGrows(ops, m, j);
      HeldAtIs(ops, j, k);
    }
  }

  lemma HeldAtIs(ops: seq<Op>, m: nat, k: nat)
    ensures HeldAt(ops, m, k) ==> m <= |ops| && Holds(Run(ops[..m]), k)
    ensures m <= |ops| && Holds(Run(ops[..m]), k) ==> HeldAt(ops, m, k)
  {
  }

  /** A number not yet handed out has never been held. */
  lemma NotYet(ops: seq<Op>, m: nat, k: nat)
    requires k > Run(ops).last
    ensures !HeldAt(ops, m, k)
  {
    hide Run, Holds;
    if m <= |ops| {
      assert ops[..|ops|] == ops;
      LastGrows(ops, m, |ops|);
      HeldOnce(ops[..m], k);
    }
  }

  // ----- every number accounted for ----------------------------------------------------------------------------------

  /** Operation n brings entry k up to number `to` in place. */
  ghost predicate UpdatedAt(ops: seq<Op>, n: nat, k: nat, to: nat) {
    n < |ops| && UpdatedFrom(Run(ops[..n]), ops[n]) == Some(k) && to == Run(ops[..n]).last + 1
  }

  /**
   The fate says what happened: gone and swapped out only after being held, updated by an update, never held by no
   state.
   */
  ghost predicate TrueFate(ops: seq<Op>, k: nat, fate: Fate) {
    && (fate == NeverHeld ==> forall m: nat {:trigger HeldAt(ops, m, k)} :: !HeldAt(ops, m, k))
    && (fate.Updated? ==> exists n: nat :: UpdatedAt(ops, n, k, fate.to))
    && (fate == SwappedOut || fate == Gone ==> exists m: nat :: HeldAt(ops, m, k))
  }

  lemma HeldAtMore(ops: seq<Op>, op: Op, m: nat, k: nat)
    ensures m <= |ops| ==> (HeldAt(ops + [op], m, k) <==> HeldAt(ops, m, k))
    ensures m == |ops| + 1 ==> (HeldAt(ops + [op], m, k) <==> Holds(Run(ops + [op]), k))
    ensures m > |ops| + 1 ==> !HeldAt(ops + [op], m, k)
    ensures m == |ops| ==> (HeldAt(ops, m, k) <==> Holds(Run(ops), k))
  {
    hide Run, Holds;
    if m <= |ops| { assert (ops + [op])[..m] == ops[..m]; }
    if m == |ops| { assert ops[..m] == ops; }
    if m == |ops| + 1 { assert (ops + [op])[..m] == ops + [op]; }
  }

  /** A true fate of a number that is not held stays true. */
  lemma FateStays(ops: seq<Op>, op: Op, k: nat, fate: Fate)
    requires TrueFate(ops, k, fate) && !Holds(Run(ops + [op]), k)
    ensures TrueFate(ops + [op], k, fate)
  {
    hide HeldAt, UpdatedAt, Holds, Run;
    forall m: nat ensures HeldAt(ops, m, k) ==> HeldAt(ops + [op], m, k)
      ensures HeldAt(ops + [op], m, k) ==> HeldAt(ops, m, k)
    {
      HeldAtMore(ops, op, m, k);
      HeldAtIs(ops, m, k);
    }
    if fate.Updated? {
      var n: nat :| UpdatedAt(ops, n, k, fate.to);
      UpdatedAtMore(ops, op, n, k, fate.to);
    }
  }

  lemma UpdatedAtMore(ops: seq<Op>, op: Op, n: nat, k: nat, to: nat)
    ensures UpdatedAt(ops, n, k, to) ==> UpdatedAt(ops + [op], n, k, to)
    ensures UpdatedFrom(Run(ops), op) == Some(k) && to == Run(ops).last + 1 ==> UpdatedAt(ops + [op], |ops|, k, to)
  {
    hide UpdatedFrom, Run;
    if n < |ops| { assert (ops + [op])[..n] == ops[..n] && (ops + [op])[n] == ops[n]; }
    assert (ops + [op])[..|ops|] == ops;
  }

  /** Held in a place, or finished: the fates the ledger ties to the state by itself. */
  predicate Lasting(fate: Fate) {
    !(fate == SwappedOut || fate.Updated? || fate == NeverHeld)
  }

  /** The fate of number k after an operation, from the fates before and any fates g that balance after. */
  ghost function NextFate(f: Fates, g: Fates, from: Option<nat>, last: nat, k: nat): Fate
    requires k in g
  {
    if Lasting(g[k]) then g[k]
    else if k !in f then NeverHeld
    else if !Lasting(f[k]) then f[k]
    else if from == Some(k) then Updated(last + 1)
    else SwappedOut
  }

  lemma UpdateStays(s: State, op: Op)
    requires Shaped(s)
    ensures UpdatedFrom(s, op).Some? ==> MoveOf(s, op) == Stay && op.DoRequest?
  {
    hide Refused;
  }

  lemma LastingNext(ops: seq<Op>, op: Op, f: Fates, g: Fates, k: nat)
    requires Ledger(Run(ops), f) && Ledger(Run(ops + [op]), g) && k in g && Lasting(g[k])
    requires k in f ==> TrueFate(ops, k, f[k])
    ensures TrueFate(ops + [op], k, g[k])
  {
    hide *;
    var s, r := Run(ops), Run(ops + [op]);
    GoneFates(s, f, k);
    GoneFates(r, g, k);
    StepOf(ops, op);
    TurnedNumbers(s, r, MoveOf(s, op), UpdatedFrom(s, op), k);
    EverIs(s, r, Finished, k);
    LastingTrue(ops, op, g[k], k, k in f && f[k] == Gone);
  }

  lemma LastingTrue(ops: seq<Op>, op: Op, fate: Fate, k: nat, was: bool)
    requires Lasting(fate)
    requires was ==> TrueFate(ops, k, Gone)
    requires fate == Gone ==> was || Holds(Run(ops), k)
    ensures TrueFate(ops + [op], k, fate)
  {
    hide Run, Holds, HeldAt, UpdatedAt;
    if fate == Gone {
      HeldAtMore(ops, op, |ops|, k);
      if was {
        var m: nat :| HeldAt(ops, m, k);
        HeldAtMore(ops, op, m, k);
        HeldAtIs(ops, m, k);
        assert HeldAt(ops + [op], m, k);
      } else {
        assert HeldAt(ops + [op], |ops|, k);
      }
    }
  }

  lemma NewTrue(ops: seq<Op>, op: Op, k: nat)
    requires k > Run(ops).last && !Holds(Run(ops + [op]), k)
    ensures TrueFate(ops + [op], k, NeverHeld)
  {
    hide Run, Holds, HeldAt, UpdatedAt;
    forall m: nat ensures !HeldAt(ops + [op], m, k) {
      HeldAtMore(ops, op, m, k);
      NotYet(ops, m, k);
    }
  }

  /** A number held before and not after, with no Finished event. */
  lemma LeftTrue(ops: seq<Op>, op: Op, k: nat)
    requires Holds(Run(ops), k) && !Holds(Run(ops + [op]), k) && !Ever(Run(ops + [op]), Finished, k)
    ensures UpdatedFrom(Run(ops), op) == Some(k) ==>
      TrueFate(ops + [op], k, Updated(Run(ops).last + 1)) && Run(ops + [op]).last == Run(ops).last + 1
    ensures UpdatedFrom(Run(ops), op) != Some(k) ==>
      TrueFate(ops + [op], k, SwappedOut) && Ever(Run(ops + [op]), DefaultSwapped, k)
  {
    var s, r := Run(ops), Run(ops + [op]);
    hide Run, Holds, Logs, Ever, HeldAt, UpdatedAt, UpdatedFrom, MoveOf;
    DeparturesLogged(ops, op, k);
    LogOnly(ops, op);
    UpdateStays(s, op);
    EverIs(s, r, Finished, k);
    EverIs(s, r, DefaultSwapped, k);
    UpdatedAtMore(ops, op, |ops|, k, s.last + 1);
    HeldAtMore(ops, op, |ops|, k);
  }

  lemma LogOnly(ops: seq<Op>, op: Op)
    ensures Run(ops).log <= Run(ops + [op]).log && Run(ops).last <= Run(ops + [op]).last <= Run(ops).last + 1
  {
    hide *;
    StepOf(ops, op);
    TurnedNumbers(Run(ops), Run(ops + [op]), MoveOf(Run(ops), op), UpdatedFrom(Run(ops), op), 0);
  }

  ghost predicate Relabels(r: State, fate: Fate, fate': Fate, k: nat) {
    && (Lasting(fate) ==> fate' == fate)
    && (!Lasting(fate) ==> !Lasting(fate'))
    && (fate' == SwappedOut ==> Ever(r, DefaultSwapped, k))
    && (fate'.Updated? ==> k < fate'.to <= r.last)
  }

  lemma NextIs(ops: seq<Op>, op: Op, f: Fates, g: Fates, k: nat)
    requires Ledger(Run(ops), f) && Ledger(Run(ops + [op]), g) && k in g
    requires k in f ==> TrueFate(ops, k, f[k])
    ensures TrueFate(ops + [op], k, NextFate(f, g, UpdatedFrom(Run(ops), op), Run(ops).last, k))
    ensures Relabels(Run(ops + [op]), g[k], NextFate(f, g, UpdatedFrom(Run(ops), op), Run(ops).last, k), k)
  {
    var s, r := Run(ops), Run(ops + [op]);
    hide Ledger, Run, TrueFate, UpdatedFrom, Holds, Ever;
    HeldFates(s, f, k);
    HeldFates(r, g, k);
    HoldsIs(s, k);
    HoldsIs(r, k);
    GoneFates(s, f, k);
    GoneFates(r, g, k);
    LogOnly(ops, op);
    EverIs(s, r, Finished, k);
    EverIs(s, r, DefaultSwapped, k);
    if Lasting(g[k]) {
      LastingNext(ops, op, f, g, k);
    } else if k !in f {
      NewTrue(ops, op, k);
    } else if !Lasting(f[k]) {
      FateStays(ops, op, k, f[k]);
      UpdatedNewer(s, f, k);
    } else {
      LeftTrue(ops, op, k);
    }
  }

  lemma UpdatedNewer(s: State, fate: Fates, k: nat)
    requires Ledger(s, fate) && k in fate
    ensures fate[k].Updated? ==> k < fate[k].to <= s.last
  {
    hide SlotFate, CommandFates, ClaimFates, LogFates, ParkedLogged;
  }

  lemma Relabelled(r: State, g: Fates, g': Fates)
    requires Ledger(r, g) && (forall k: nat :: k in g' <==> k in g)
    requires forall k: nat {:trigger g'[k]} {:trigger g[k]} :: k in g ==> Relabels(r, g[k], g'[k], k)
    ensures Ledger(r, g')
  {
    hide Ever;
    SlotRelabelled(r, r.dflt, g, g', InDefault);
    SlotRelabelled(r, r.fallback, g, g', InFallback);
    SlotRelabelled(r, r.combat, g, g', InCombat);
    CommandsRefated(r, g, g');
    ClaimsRefated(r, g, g');
    LogRefated(r, g, g');
    hide SlotFate, CommandFates, ClaimFates, LogFates, ParkedLogged;
  }

  lemma SlotRelabelled(r: State, slot: Option<Held>, g: Fates, g': Fates, place: Fate)
    requires SlotFate(slot, g, place) && Lasting(place) && (forall k: nat :: k in g' <==> k in g)
    requires forall k: nat {:trigger g'[k]} {:trigger g[k]} :: k in g ==> Relabels(r, g[k], g'[k], k)
    ensures SlotFate(slot, g', place)
  {
    hide Ever;
  }

  lemma CommandsRefated(r: State, g: Fates, g': Fates)
    requires CommandFates(r.commands, g) && (forall k: nat :: k in g' <==> k in g)
    requires forall k: nat {:trigger g'[k]} {:trigger g[k]} :: k in g ==> Relabels(r, g[k], g'[k], k)
    ensures CommandFates(r.commands, g')
  {
    hide Ever;
  }

  lemma StillInClaims(r: State, fate: Fate, fate': Fate, k: nat)
    requires Relabels(r, fate, fate', k) && fate' == InClaims
    ensures fate == InClaims
  {
    hide Ever;
  }

  lemma ClaimsRefated(r: State, g: Fates, g': Fates)
    requires ClaimFates(r.claims, g) && (forall k: nat :: k in g' <==> k in g)
    requires forall k: nat {:trigger g'[k]} {:trigger g[k]} :: k in g ==> Relabels(r, g[k], g'[k], k)
    ensures ClaimFates(r.claims, g')
  {
    hide Ever;
    forall k {:trigger g'[k]} | k in g' && g'[k] == InClaims
      ensures exists i :: 0 <= i < |r.claims| && r.claims[i].arrival == k
    {
      StillInClaims(r, g[k], g'[k], k);
    }
  }

  lemma LogRefated(r: State, g: Fates, g': Fates)
    requires LogFates(r.log, g) && (forall k: nat :: k in g' <==> k in g)
    requires forall k: nat {:trigger g'[k]} {:trigger g[k]} :: k in g ==> Relabels(r, g[k], g'[k], k)
    ensures LogFates(r.log, g')
  {
    forall k {:trigger g'[k]} | k in g' && g'[k] == Gone
      ensures exists i :: 0 <= i < |r.log| && r.log[i].what == Finished && r.log[i].arrival == k
    {
      assert g[k] == Gone;
    }
    forall k {:trigger g'[k]} | k in g' && g'[k] == SwappedOut
      ensures exists i :: 0 <= i < |r.log| && r.log[i].what == DefaultSwapped && r.log[i].arrival == k
    {
      assert Ever(r, DefaultSwapped, k);
    }
  }

  /** The numbers balance, and every fate is a true account of what happened to its number. */
  ghost predicate Accounted(ops: seq<Op>, fate: Fates) {
    Ledger(Run(ops), fate) && forall k: nat {:trigger fate[k]} :: k in fate ==> TrueFate(ops, k, fate[k])
  }

  lemma StepAccounts(ops: seq<Op>, op: Op, f: Fates) returns (fate: Fates)
    requires Accounted(ops, f)
    ensures Accounted(ops + [op], fate)
  {
    var g := RunIsSafe(ops + [op]);
    hide Ledger, TrueFate, Run, Relabels, NextFate;
    var from, last := UpdatedFrom(Run(ops), op), Run(ops).last;
    fate := map k | k in g :: NextFate(f, g, from, last, k);
    forall k: nat | k in g ensures TrueFate(ops + [op], k, fate[k]) && Relabels(Run(ops + [op]), g[k], fate[k], k) {
      NextIs(ops, op, f, g, k);
    }
    Relabelled(Run(ops + [op]), g, fate);
  }

  /**
   Conservation over every run: each number handed out is in exactly one place, or was held and left with one
   Finished event, or was a default that left logged as swapped, or was brought up in place by a request to
   the number that request took, or was held by no state of the run.
   */
  lemma {:induction false} RunAccounts(ops: seq<Op>) returns (fate: Fates)
    ensures Accounted(ops, fate)
    decreases |ops|
  {
    hide Accounted;
    if ops == [] {
      fate := map[];
      NothingAccounted();
    } else {
      var prior, op := ops[..|ops| - 1], ops[|ops| - 1];
      assert prior + [op] == ops;
      var f := RunAccounts(prior);
      fate := StepAccounts(prior, op, f);
    }
  }

  lemma NothingAccounted()
    ensures Accounted([], map[])
  {
    FreshIsSafe();
    hide Ledger;
  }

  // ----- when an entry gets a second ending event --------------------------------------------------------------------

  predicate Ending(what: EventKind) {
    what == Finished || what == DefaultSwapped
  }

  /** The log has two ending events for entry k. */
  ghost predicate EndedTwice(log: seq<Event>, k: nat) {
    exists i, j :: 0 <= i < j < |log| && Ending(log[i].what) && Ending(log[j].what)
      && log[i].arrival == log[j].arrival == k
  }

  /** After m operations entry k is the parked default. */
  ghost predicate ParkedAt(ops: seq<Op>, m: nat, k: nat) {
    m <= |ops| && Number(Run(ops[..m]).fallback) == Some(k)
  }

  /**
   The branch taken ends the slot entry k is in: any branch that touches the defaults for the one on top, Die or
   Clear(true) for the parked one.
   */
  predicate EndsSlot(s: State, op: Op, k: nat)
    requires Shaped(s)
  {
    (Number(s.dflt) == Some(k) && MoveOf(s, op) != Stay) || (Number(s.fallback) == Some(k) && MoveOf(s, op) == EndBoth)
  }

  ghost predicate EndsAt(ops: seq<Op>, n: nat, k: nat) {
    n < |ops| && EndsSlot(Run(ops[..n]), ops[n], k)
  }

  lemma TurnedEnds(s: State, op: Op, r: State, k: nat)
    requires Shaped(s) && Turned(s, r, MoveOf(s, op), UpdatedFrom(s, op)) && EndsSlot(s, op, k)
    ensures s.log <= r.log && (Logs(s, r, Finished, k) || Logs(s, r, DefaultSwapped, k))
    ensures SwapsDefault(MoveOf(s, op)) ==> Logs(s, r, DefaultSwapped, k)
    ensures MoveOf(s, op) == EndBoth ==> Logs(s, r, Finished, k)
  {
    hide Above, Logs, MoveOf, UpdatedFrom, EventsFit, Renewed;
    assert s.log <= r.log by { TurnedNumbers(s, r, MoveOf(s, op), UpdatedFrom(s, op), k); }
  }

  lemma TwoEnds(s: State, r: State, log: seq<Event>, what: EventKind, then_: EventKind, k: nat)
    requires Ever(s, what, k) && Logs(s, r, then_, k) && Ending(what) && Ending(then_) && s.log <= r.log <= log
    ensures exists i, j ::
      0 <= i < j < |log| && log[i].what == what && log[j].what == then_ && log[i].arrival == log[j].arrival == k
    ensures EndedTwice(log, k)
  {
    var i :| 0 <= i < |s.log| && s.log[i].what == what && s.log[i].arrival == k;
    var j :| |s.log| <= j < |r.log| && r.log[j].what == then_ && r.log[j].arrival == k;
    assert log[i] == s.log[i] && log[j] == r.log[j];
  }

  lemma ParkedEver(ops: seq<Op>, m: nat, n: nat, k: nat)
    requires m <= n <= |ops| && ParkedAt(ops, m, k)
    ensures Ever(Run(ops[..n]), DefaultSwapped, k)
  {
    hide Ever, Run;
    HeldOnce(ops[..m], k);
    LastGrows(ops, m, n);
    EverIs(Run(ops[..m]), Run(ops[..n]), DefaultSwapped, k);
  }

  lemma StepAt(ops: seq<Op>, n: nat)
    requires n < |ops|
    ensures Turned(Run(ops[..n]), Run(ops[..n + 1]), MoveOf(Run(ops[..n]), ops[n]), UpdatedFrom(Run(ops[..n]), ops[n]))
    ensures Run(ops[..n]).log <= Run(ops[..n + 1]).log <= Run(ops).log
  {
    hide *;
    assert ops[..|ops|] == ops;
    PrefixStep(ops, n);
    StepOf(ops[..n], ops[n]);
    LastGrows(ops, n, n + 1);
    LastGrows(ops, n + 1, |ops|);
  }

  lemma ParkedEndsTwice(ops: seq<Op>, m: nat, n: nat, k: nat)
    requires m <= n && ParkedAt(ops, m, k) && EndsAt(ops, n, k)
    ensures EndedTwice(Run(ops).log, k)
  {
    var s, r := Run(ops[..n]), Run(ops[..n + 1]);
    hide Run, Turned, MoveOf, UpdatedFrom, EndsSlot, ParkedAt, Ever, Logs, EndedTwice;
    ParkedEver(ops, m, n, k);
    StepAt(ops, n);
    TurnedEnds(s, ops[n], r, k);
    if Logs(s, r, Finished, k) { TwoEnds(s, r, Run(ops).log, DefaultSwapped, Finished, k); }
    if Logs(s, r, DefaultSwapped, k) { TwoEnds(s, r, Run(ops).log, DefaultSwapped, DefaultSwapped, k); }
  }

  lemma {:induction false} SwappedHandedOut(ops: seq<Op>, k: nat)
    requires Ever(Run(ops), DefaultSwapped, k)
    ensures k <= Run(ops).last
    decreases |ops|
  {
    hide *;
    NothingEver(k);
    var prior, op := ops[..|ops| - 1], ops[|ops| - 1];
    assert prior + [op] == ops;
    StepOf(prior, op);
    TurnedNumbers(Run(prior), Run(ops), MoveOf(Run(prior), op), UpdatedFrom(Run(prior), op), k);
    EverIs(Run(prior), Run(ops), DefaultSwapped, k);
    if Ever(Run(prior), DefaultSwapped, k) { SwappedHandedOut(prior, k); } else { HeldOnce(prior, k); }
  }

  lemma NothingEver(k: nat)
    ensures !Ever(Run([]), DefaultSwapped, k)
  {
  }

  /** A swap in one step leaves the entry parked or gone, never over the defaults. */
  lemma TurnedSwap(s: State, r: State, move: Move, from: Option<nat>, k: nat)
    requires Turned(s, r, move, from) && Logs(s, r, DefaultSwapped, k) && k <= s.last
      && !(Number(s.dflt) == Some(k) && Above(s, k))
    ensures !Above(r, k) && (Holds(r, k) ==> Number(r.fallback) == Some(k))
  {
    hide Above;
    var i :| |s.log| <= i < |r.log| && r.log[i].what == DefaultSwapped && r.log[i].arrival == k;
    assert EventFits(s, move, r.log[i]);
  }

  lemma TurnedAbove(s: State, r: State, move: Move, from: Option<nat>, k: nat)
    requires Turned(s, r, move, from) && k <= s.last
    ensures Above(r, k) ==> Above(s, k)
  {
    hide Above, Logs, EventFits;
  }

  lemma ParkedMore(ops: seq<Op>, op: Op, m: nat, k: nat)
    ensures ParkedAt(ops, m, k) ==> ParkedAt(ops + [op], m, k)
    ensures Number(Run(ops + [op]).fallback) == Some(k) ==> ParkedAt(ops + [op], |ops| + 1, k)
  {
    hide Run;
    if m <= |ops| { assert (ops + [op])[..m] == ops[..m]; }
    assert (ops + [op])[..|ops| + 1] == ops + [op];
  }

  lemma SwappedParkedStep(prior: seq<Op>, op: Op, k: nat, was: nat) returns (m: nat)
    requires Ever(Run(prior + [op]), DefaultSwapped, k) && Holds(Run(prior + [op]), k)
    requires Ever(Run(prior), DefaultSwapped, k) && Holds(Run(prior), k) ==>
      !Above(Run(prior), k) && ParkedAt(prior, was, k)
    ensures !Above(Run(prior + [op]), k) && ParkedAt(prior + [op], m, k)
  {
    hide *;
    var s, r := Run(prior), Run(prior + [op]);
    StepOf(prior, op);
    TurnedNumbers(s, r, MoveOf(s, op), UpdatedFrom(s, op), k);
    EverIs(s, r, DefaultSwapped, k);
    HeldOnce(prior, k);
    if Ever(s, DefaultSwapped, k) {
      SwappedHandedOut(prior, k);
      TurnedAbove(s, r, MoveOf(s, op), UpdatedFrom(s, op), k);
      m := was;
      ParkedMore(prior, op, m, k);
    } else {
      TurnedSwap(s, r, MoveOf(s, op), UpdatedFrom(s, op), k);
      m := |prior| + 1;
      ParkedMore(prior, op, m, k);
    }
  }

  /** An entry that is held and has been logged as swapped was once parked, and is one of the defaults. */
  lemma {:induction false} SwappedParked(ops: seq<Op>, k: nat) returns (m: nat)
    requires Ever(Run(ops), DefaultSwapped, k) && Holds(Run(ops), k)
    ensures !Above(Run(ops), k) && ParkedAt(ops, m, k)
    decreases |ops|
  {
    hide *;
    NothingEver(k);
    var prior, op := ops[..|ops| - 1], ops[|ops| - 1];
    assert prior + [op] == ops;
    var was := 0;
    if Ever(Run(prior), DefaultSwapped, k) && Holds(Run(prior), k) { was := SwappedParked(prior, k); }
    m := SwappedParkedStep(prior, op, k, was);
  }

  lemma NothingLogged(ops: seq<Op>)
    ensures Run(ops[..0]).log == []
  {
    assert ops[..0] == [];
  }

  /** The operation that logs event j of the run. */
  lemma {:induction false} LoggedBy(ops: seq<Op>, j: nat, q: nat) returns (n: nat)
    requires q <= |ops| && j < |Run(ops[..q]).log|
    ensures n < |ops| && |Run(ops[..n]).log| <= j < |Run(ops[..n + 1]).log|
    decreases q
  {
    hide Run;
    NothingLogged(ops);
    if |Run(ops[..q - 1]).log| <= j {
      n := q - 1;
    } else {
      n := LoggedBy(ops, j, q - 1);
    }
  }

  lemma TurnedFits(s: State, r: State, move: Move, from: Option<nat>, j: nat)
    requires Turned(s, r, move, from) && |s.log| <= j < |r.log|
    ensures EventFits(s, move, r.log[j])
    ensures forall i :: |s.log| <= i < j ==>
      EventFits(s, move, r.log[i]) && !(r.log[i].what == DefaultSwapped && r.log[j].what == DefaultSwapped)
  {
    hide EventFits, SlotsMoved, Renewed, EventsFull;
  }

  lemma FitsHolds(s: State, move: Move, e: Event)
    requires EventFits(s, move, e) && Ending(e.what)
    ensures Holds(s, e.arrival)
    ensures !Above(s, e.arrival) ==>
      (Number(s.dflt) == Some(e.arrival) && move != Stay) || (Number(s.fallback) == Some(e.arrival) && move == EndBoth)
  {
    hide Above;
  }

  /** Two ending events of one operation are of different entries. */
  lemma OneStepOneEnd(ops: seq<Op>, s: State, r: State, move: Move, from: Option<nat>, i: nat, j: nat)
    requires Turned(s, r, move, from) && |s.log| <= i < j < |r.log| && r.log <= Run(ops).log && Ending(r.log[i].what)
      && Ending(r.log[j].what)
    requires forall k: nat {:trigger Above(s, k)} :: Number(s.dflt) == Some(k) ==>
      !Above(s, k) && Number(s.fallback) != Some(k)
    ensures r.log[i].arrival != r.log[j].arrival
  {
    TurnedFits(s, r, move, from, j);
    hide Turned, Above, Run;
    var log := Run(ops).log;
    assert log[i] == r.log[i] && log[j] == r.log[j];
    if r.log[i].what == Finished && r.log[j].what == Finished {
      FinishedOnce(ops, i, j);
    } else {
      assert EventFits(s, move, r.log[i]) && EventFits(s, move, r.log[j]);
    }
  }

  lemma LogWithin(ops: seq<Op>)
    ensures forall n: nat {:trigger ops[..n]} :: n <= |ops| ==> Run(ops[..n]).log <= Run(ops).log
  {
    hide Run;
    assert ops[..|ops|] == ops;
    forall n: nat {:trigger ops[..n]} | n <= |ops|
      ensures Run(ops[..n]).log <= Run(ops).log
    {
      LastGrows(ops, n, |ops|);
    }
  }

  lemma EndedTwiceParked(ops: seq<Op>, k: nat) returns (m: nat, n: nat)
    requires EndedTwice(Run(ops).log, k)
    ensures m <= n && ParkedAt(ops, m, k) && EndsAt(ops, n, k)
  {
    hide Run, ParkedAt, EndsAt;
    var log := Run(ops).log;
    var i, j :| 0 <= i < j < |log| && Ending(log[i].what) && Ending(log[j].what)
      && log[i].arrival == log[j].arrival == k;
    assert ops[..|ops|] == ops;
    LogWithin(ops);
    n := LoggedBy(ops, j, |ops|);
    m := EndingsParked(ops, n, i, j, k);
  }

  lemma EndingsParked(ops: seq<Op>, n: nat, i: nat, j: nat, k: nat) returns (m: nat)
    requires n < |ops| && i < j && |Run(ops[..n]).log| <= j < |Run(ops[..n + 1]).log| <= |Run(ops).log|
    requires Ending(Run(ops).log[i].what) && Ending(Run(ops).log[j].what)
      && Run(ops).log[i].arrival == Run(ops).log[j].arrival == k
    ensures m <= n && ParkedAt(ops, m, k) && EndsAt(ops, n, k)
  {
    var s, r, log := Run(ops[..n]), Run(ops[..n + 1]), Run(ops).log;
    hide Run, Above, Holds, Turned, MoveOf, UpdatedFrom, EventFits, ParkedAt;
    var move, from := MoveOf(s, ops[n]), UpdatedFrom(s, ops[n]);
    StepAt(ops, n);
    assert log[j] == r.log[j];
    TurnedFits(s, r, move, from, j);
    FitsHolds(s, move, r.log[j]);
    forall h: nat {:trigger Above(s, h)}
      ensures Number(s.dflt) == Some(h) ==> !Above(s, h) && Number(s.fallback) != Some(h)
    {
      HeldOnce(ops[..n], h);
    }
    HeldOnce(ops[..n], k);
    if i >= |s.log| {
      assert log[i] == r.log[i];
      OneStepOneEnd(ops, s, r, move, from, i, j);
    } else {
      assert log[i] == s.log[i];
      assert Ever(s, log[i].what, k);
      m := SwappedParked(ops[..n], k);
      ParkedPrefix(ops, n, m, k);
    }
  }

  lemma ParkedPrefix(ops: seq<Op>, n: nat, m: nat, k: nat)
    requires n <= |ops| && ParkedAt(ops[..n], m, k)
    ensures m <= n && ParkedAt(ops, m, k)
  {
    hide Run;
    assert ops[..n][..m] == ops[..m];
  }

  /**
   Over every run, an entry gets a second ending event exactly when it was once the parked default and a
   later operation takes a branch that ends the slot it is in.
   */
  lemma SecondEndingExactly(ops: seq<Op>, k: nat)
    ensures EndedTwice(Run(ops).log, k) <==> exists m: nat, n: nat :: m <= n && ParkedAt(ops, m, k) && EndsAt(ops, n, k)
  {
    hide EndedTwice, ParkedAt, EndsAt, Run;
    if EndedTwice(Run(ops).log, k) {
      var m, n := EndedTwiceParked(ops, k);
    }
    if m: nat, n: nat :| m <= n && ParkedAt(ops, m, k) && EndsAt(ops, n, k) {
      ParkedEndsTwice(ops, m, n, k);
    }
  }

  /** The same for one operation: it adds an ending event for an entry that has one exactly in these states. */
  lemma SecondEndingStep(ops: seq<Op>, op: Op, k: nat)
    ensures var s, r := Run(ops), Run(ops + [op]);
      (Ever(s, Finished, k) || Ever(s, DefaultSwapped, k)) && (Logs(s, r, Finished, k) || Logs(s, r, DefaultSwapped, k))
      <==> EndsSlot(s, op, k) && exists m: nat :: ParkedAt(ops, m, k)
  {
    var s, r := Run(ops), Run(ops + [op]);
    hide Run, MoveOf, UpdatedFrom, Ever, ParkedAt, EndsSlot;
    StepOf(ops, op);
    HeldOnce(ops, k);
    if m: nat :| EndsSlot(s, op, k) && ParkedAt(ops, m, k) {
      ParkedNow(ops, m, k);
      hide Turned, Logs;
      TurnedEnds(s, op, r, k);
    }
    if (Ever(s, Finished, k) || Ever(s, DefaultSwapped, k))
      && (Logs(s, r, Finished, k) || Logs(s, r, DefaultSwapped, k)) {
      LoggedEnds(s, op, r, k);
      var m := SwappedParked(ops, k);
    }
  }

  lemma ParkedNow(ops: seq<Op>, m: nat, k: nat)
    requires ParkedAt(ops, m, k)
    ensures Ever(Run(ops), DefaultSwapped, k)
  {
    assert ops[..|ops|] == ops;
    hide Run, Ever;
    ParkedEver(ops, m, |ops|, k);
  }

  lemma LoggedEnds(s: State, op: Op, r: State, k: nat)
    requires Shaped(s) && Turned(s, r, MoveOf(s, op), UpdatedFrom(s, op))
      && (Logs(s, r, Finished, k) || Logs(s, r, DefaultSwapped, k))
    ensures Holds(s, k) && (!Above(s, k) ==> EndsSlot(s, op, k))
  {
    hide MoveOf, UpdatedFrom, EventFits, Above, SlotsMoved, Renewed, EventsFull, Holds;
    var j :| |s.log| <= j < |r.log| && Ending(r.log[j].what) && r.log[j].arrival == k;
    FitsHolds(s, MoveOf(s, op), r.log[j]);
  }

  // ----- the two shapes of it ----------------------------------------------------------------------------------------

  const PATROL := DoInstallDefault(Patrol)
  const FOLLOW := DoRequest(MoveRequest(Follow, 0, false, 0), false)

  ghost predicate Bare(s: State, top: nat, under: Option<nat>) {
    Number(s.dflt) == Some(top) && Number(s.fallback) == under && s.last >= top
      && forall k: nat {:trigger Above(s, k)} :: !Above(s, k)
  }

  lemma BareSelects(s: State, top: nat, under: Option<nat>)
    requires Shaped(s) && Bare(s, top, under)
    ensures SelectedLayer(s) == Some(DefaultLayer)
  {
    if s.combat.Some? { CombatAbove(s); }
    forall i: nat | i < LAYERS ensures s.commands[i].None? {
      if s.commands[i].Some? { CommandAbove(s, i); }
    }
    if s.claims != [] { ClaimAbove(s, 0); }
  }

  /** Nothing comes in over the defaults when the new number is the default's, or when there is none. */
  lemma StaysBare(ops: seq<Op>, op: Op)
    requires forall k: nat {:trigger Above(Run(ops), k)} :: !Above(Run(ops), k)
    requires SwapsDefault(MoveOf(Run(ops), op)) || Run(ops + [op]).last == Run(ops).last
    ensures forall k: nat {:trigger Above(Run(ops + [op]), k)} :: !Above(Run(ops + [op]), k)
  {
    var s, r := Run(ops), Run(ops + [op]);
    StepOf(ops, op);
    hide Run, Above, MoveOf, UpdatedFrom, Logs, EventFits;
    forall k: nat {:trigger Above(r, k)} ensures !Above(r, k) { HeldOnce(ops + [op], k); }
  }

  /** A patrol installed and a follow requested on top of it. */
  lemma PatrolParked()
    ensures Bare(Run([PATROL, FOLLOW]), 2, Some(1))
    ensures ParkedAt([PATROL, FOLLOW], 2, 1)
  {
    hide Run, Above, Renewed, EventsFit, EventsFull, UpdatedFrom, Selected;
    assert [] + [PATROL] == [PATROL] && [PATROL] + [FOLLOW] == [PATROL, FOLLOW];
    assert [PATROL, FOLLOW][..2] == [PATROL, FOLLOW];
    NothingRun();
    StepOf([], PATROL);
    StaysBare([], PATROL);
    StepOf([PATROL], FOLLOW);
    StaysBare([PATROL], FOLLOW);
  }

  lemma NothingRun()
    ensures Run([]).last == 0 && forall k: nat {:trigger Above(Run([]), k)} :: !Above(Run([]), k)
  {
  }

  /** Swapped when it is parked, and finished at a death. */
  lemma SwappedThenFinished()
    ensures var log := Run([PATROL, FOLLOW, DoDie]).log;
      exists i, j :: 0 <= i < j < |log| && log[i].what == DefaultSwapped && log[j].what == Finished
        && log[i].arrival == log[j].arrival == 1
  {
    hide Run, Turned, UpdatedFrom, Ever, Logs, Above;
    var ops := [PATROL, FOLLOW, DoDie];
    assert ops[..2] == [PATROL, FOLLOW] == [PATROL, FOLLOW][..2] && ops[..3] == ops;
    PatrolParked();
    ParkedEver([PATROL, FOLLOW], 2, 2, 1);
    StepAt(ops, 2);
    TurnedEnds(Run(ops[..2]), DoDie, Run(ops), 1);
    TwoEnds(Run(ops[..2]), Run(ops), Run(ops).log, DefaultSwapped, Finished, 1);
  }

  /** Swapped when it is parked, back on top when the follow ends, and swapped again: two swaps and no death. */
  lemma SwappedTwice()
    ensures var log := Run([PATROL, FOLLOW, DoExpireSelected, FOLLOW]).log;
      exists i, j :: 0 <= i < j < |log| && log[i].what == DefaultSwapped && log[j].what == DefaultSwapped
        && log[i].arrival == log[j].arrival == 1
  {
    hide Run, Turned, UpdatedFrom, Ever, Logs, Above, SelectedLayer;
    var ops := [PATROL, FOLLOW, DoExpireSelected, FOLLOW];
    assert ops[..2] == [PATROL, FOLLOW] && ops[..4] == ops;
    PatrolParked();
    PatrolBack(ops);
    ParkedEver(ops, 2, 3, 1);
    StepAt(ops, 3);
    TurnedEnds(Run(ops[..3]), FOLLOW, Run(ops), 1);
    TwoEnds(Run(ops[..3]), Run(ops), Run(ops).log, DefaultSwapped, DefaultSwapped, 1);
  }

  lemma PatrolBack(ops: seq<Op>)
    requires |ops| >= 3 && ops[..2] == [PATROL, FOLLOW] && ops[2] == DoExpireSelected
    ensures Number(Run(ops[..3]).dflt) == Some(1) && ParkedAt(ops, 2, 1)
  {
    hide Run, UpdatedFrom, Above, Renewed, EventsFit, EventsFull, SelectedLayer;
    PatrolParked();
    BareSelects(Run(ops[..2]), 2, Some(1));
    StepAt(ops, 2);
  }
}
