/** What holds of every run of the controller, whatever the crashes, refusals and observations. */
module Theorems {
  import opened Contracts
  import opened Controller
  import opened Accounting
  import opened Paths
  import opened Journaling
  import opened Invariants
  import opened Emissions
  import opened Generations
  import opened History
  import opened Runtime
  import opened Runs

  // ---- the journal is always readable ----

  // Every state a run ever made durable is read back unchanged and keeps the state invariants.
  lemma EveryWriteReadsBack(acts: seq<Act>, k: nat)
    requires Allowed(acts) && k < |After(acts).log| && After(acts).log[k].Save?
    ensures var s := After(acts).log[k].state; Parse(s) == Some(s) && InvariantsHold(s)
  {
    RunIsSound(acts);
    assert GoodStep(After(acts).log[k]);
    assert Merged(After(acts).log[k].state.lifecycle) == After(acts).log[k].state.lifecycle;
  }

  // ---- provider calls ----

  lemma {:induction false} PrefixesHold(log: seq<Step>, k: nat)
    requires EmissionsHold(log) && k <= |log|
    ensures EmissionInv(log[..k])
  {
    if k == |log| {
      assert log[..k] == log;
    } else {
      PrefixesHold(log[..|log| - 1], k);
      assert log[..|log| - 1][..k] == log[..k];
    }
  }

  lemma {:induction false} EmitsRemembered(log: seq<Step>, at: nat)
    requires at < |log| && log[at].Emit?
    requires forall k :: at < k < |log| ==> !IsSave(log[k], IntentSave)
    ensures EmitsSinceIntent(log) >= 1
  {
    if at < |log| - 1 {
      EmitsRemembered(log[..|log| - 1], at);
    }
  }

  // A dry run calls no provider and journals nothing but an effect-free observation.
  lemma DryRunOnlyObserves(j: Option<State>, input: Input, env: Environment)
    ensures var steps := TickPlan(j, input, env, true).steps;
            |steps| <= 1 && forall k :: 0 <= k < |steps| ==> IsSave(steps[k], ObservedSave) && steps[k].state.pendingEffect.None?
  {
  }

  // ---- start generations ----

  // The start generations that were not refused are exactly 1, 2, ..., startCount: a retry reuses a refused one.
  lemma UnrefusedGenerations(acts: seq<Act>)
    requires Allowed(acts)
    ensures var log := After(acts).log;
            && StartCount(log) >= 0 && |Unrefused(log)| == StartCount(log)
            && (forall i :: 0 <= i < |Unrefused(log)| ==> Unrefused(log)[i] == i + 1)
            && StartCount(log) == StartIntents(log) - RefusedStarts(log)
  {
    RunIsSound(acts);
  }

  // ---- induction over runs ----

  lemma {:induction false} RunInduction(inv: World -> bool, given: (World, Act) -> bool, acts: seq<Act>)
    requires Allowed(acts) && inv(World([], None, 0))
    requires forall k :: 0 <= k < |acts| ==> given(After(acts[..k]), acts[k])
    requires forall w: World, act: Act | Sound(w.log, w.clock) && Admissible(w, act) && given(w, act) && inv(w) :: inv(Perform(w, act))
    ensures inv(After(acts))
  {
    if acts != [] {
      var before := acts[..|acts| - 1];
      assert forall k :: 0 <= k < |before| ==> before[..k] == acts[..k];
      RunInduction(inv, given, before);
      RunIsSound(before);
      assert Admissible(After(before), acts[|acts| - 1]) && given(After(before), acts[|acts| - 1]);
    }
  }

  // From steps to acts: a property of logs that legal steps of sound logs keep is kept by every act.
  lemma ActInduction(inv: (bool, seq<Step>) -> bool, w: World, act: Act)
    requires Sound(w.log, w.clock) && Admissible(w, act) && Observe(JournalOf(w.log), w.ledger, act.look).Some?
    requires inv(true, w.log)
    requires var input := Observe(JournalOf(w.log), w.ledger, act.look).value.0;
             forall f, l, step | Sound(l, input.nowMs) && inv(f, l) && Legal(f, l, step, input, EnvOf(act)) :: inv(false, l + [step])
    ensures Perform(w, act).log == w.log || inv(false, Perform(w, act).log)
  {
    var input := Observe(JournalOf(w.log), w.ledger, act.look).value.0;
    ActIsPath(w, act);
    LaterSound(w.log, w.clock, input.nowMs);
    var both := (f: bool, l: seq<Step>) => Sound(l, input.nowMs) && inv(f, l);
    forall f, l, step | both(f, l) && Legal(f, l, step, input, EnvOf(act)) ensures both(false, l + [step]) {
      StepKeepsSound(f, l, step, input, EnvOf(act), input.nowMs);
    }
    var steps := StepsOf(JournalOf(w.log), input, act);
    PathInduction(Rule(input, EnvOf(act)), both, true, w.log, steps);
    if steps == [] {
      assert w.log + steps == w.log;
    }
  }

  // ---- at most one call an effect ----

  predicate Retryless(act: Act) { NeverRetries(EnvOf(act)) }

  lemma ActKeepsEmissions(w: World, act: Act)
    requires Sound(w.log, w.clock) && Admissible(w, act) && Retryless(act) && EmissionsHold(w.log)
    ensures EmissionsHold(Perform(w, act).log)
  {
    if Observe(JournalOf(w.log), w.ledger, act.look).Some? {
      var input := Observe(JournalOf(w.log), w.ledger, act.look).value.0;
      forall f, l, step | Sound(l, input.nowMs) && EmissionsHold(l) && Legal(f, l, step, input, EnvOf(act))
        ensures EmissionsHold(l + [step])
      {
        StepKeepsEmissions(f, l, step, input, EnvOf(act));
        assert (l + [step])[..|l|] == l;
      }
      ActInduction((f, l) => EmissionsHold(l), w, act);
    }
  }

  lemma NoCallsYet()
    ensures EmissionsHold([])
  {
  }

  lemma EmissionsInRuns(acts: seq<Act>)
    requires Allowed(acts) && forall k :: 0 <= k < |acts| ==> Retryless(acts[k])
    ensures EmissionsHold(After(acts).log)
  {
    var inv := (w: World) => EmissionsHold(w.log);
    var given := (w: World, act: Act) => Retryless(act);
    forall w: World, act: Act | Sound(w.log, w.clock) && Admissible(w, act) && given(w, act) && inv(w) ensures inv(Perform(w, act)) {
      ActKeepsEmissions(w, act);
    }
    NoCallsYet();
    RunInduction(inv, given, acts);
  }

  // When reconciliation never asks for a retry, a provider call carries the effect of the last journaled intent,
  // directly follows its durable emitting record, and no other call has been made for that intent.
  lemma EffectEmittedAtMostOnce(acts: seq<Act>, at: nat)
    requires Allowed(acts) && forall k :: 0 <= k < |acts| ==> Retryless(acts[k])
    requires at < |After(acts).log| && After(acts).log[at].Emit?
    ensures var log := After(acts).log;
            && at > 0 && IsSave(log[at - 1], EmittingSave)
            && LastIntent(log[..at]).Some? && LastIntent(log[..at]).value.effect == log[at].effect
            && log[at - 1].state.pendingEffect.Some?
            && SameEffect(log[at - 1].state.pendingEffect.value, LastIntent(log[..at]).value)
            && forall earlier :: 0 <= earlier < at && log[earlier].Emit? ==>
                 exists k :: earlier < k < at && IsSave(log[k], IntentSave)
  {
    EmissionsInRuns(acts);
    var log := After(acts).log;
    forall k | 0 <= k <= |log| ensures EmissionInv(log[..k]) {
      PrefixesHold(log, k);
    }
    EmittedOnce(log, at);
    forall earlier | 0 <= earlier < at && log[earlier].Emit?
      ensures exists k :: earlier < k < at && IsSave(log[k], IntentSave)
    {
      if forall k :: earlier < k < at ==> !IsSave(log[k], IntentSave) {
        EmitsRemembered(log[..at], earlier);
        assert false;
      }
    }
  }

  // ---- counters ----

  ghost predicate Rising(log: seq<Step>) {
    forall i, k :: 0 <= i <= k < |log| && log[i].Save? && log[k].Save? ==>
      && log[i].state.lifecycle.cumulativeRuntimeMs <= log[k].state.lifecycle.cumulativeRuntimeMs
      && log[i].state.lifecycle.cumulativeCostUsd <= log[k].state.lifecycle.cumulativeCostUsd
  }

  lemma {:induction false} JournalIsLast(log: seq<Step>)
    requires Rising(log)
    ensures forall i :: 0 <= i < |log| && log[i].Save? ==>
      && JournalOf(log).Some?
      && log[i].state.lifecycle.cumulativeRuntimeMs <= JournalOf(log).value.lifecycle.cumulativeRuntimeMs
      && log[i].state.lifecycle.cumulativeCostUsd <= JournalOf(log).value.lifecycle.cumulativeCostUsd
  {
    if log != [] && log[|log| - 1].Emit? {
      JournalIsLast(log[..|log| - 1]);
      assert forall i :: 0 <= i < |log| && log[i].Save? ==> log[i] == log[..|log| - 1][i];
    }
  }

  lemma StepKeepsRising(first: bool, log: seq<Step>, step: Step, input: Input, env: Environment)
    requires Rising(log) && Legal(first, log, step, input, env)
    ensures Rising(log + [step])
  {
    JournalIsLast(log);
    if step.Save? && JournalOf(log).Some? {
      SpendingNeverFalls(first, log, step.kind, step.state, input, env);
    }
  }

  // Journaled runtime and cost never decrease from one durable write to any later one.
  lemma SpendingRises(acts: seq<Act>)
    requires Allowed(acts)
    ensures Rising(After(acts).log)
  {
    forall w: World, act: Act | Sound(w.log, w.clock) && Admissible(w, act) && Rising(w.log) ensures Rising(Perform(w, act).log) {
      if Observe(JournalOf(w.log), w.ledger, act.look).Some? {
        var input := Observe(JournalOf(w.log), w.ledger, act.look).value.0;
        forall f, l, step | Sound(l, input.nowMs) && Rising(l) && Legal(f, l, step, input, EnvOf(act)) ensures Rising(l + [step]) {
          StepKeepsRising(f, l, step, input, EnvOf(act));
        }
        ActInduction((f, l) => Rising(l), w, act);
      }
    }
    RunInduction((w: World) => Rising(w.log), (w: World, act: Act) => true, acts);
  }

  // The accounting file, once it exists, never counts back, and never below zero.
  predicate LedgerGrown(a: Option<Ledger>, b: Option<Ledger>) {
    && (a.Some? ==> b.Some?)
    && (b.Some? ==>
          && b.value.diskRetainedMs >= (if a.Some? then a.value.diskRetainedMs else 0)
          && b.value.networkEgressBytes >= (if a.Some? then a.value.networkEgressBytes else 0))
  }

  lemma ActGrowsLedger(w: World, act: Act)
    requires w.ledger.Some? ==> w.ledger.value.diskRetainedMs >= 0 && w.ledger.value.networkEgressBytes >= 0
    ensures LedgerGrown(w.ledger, Perform(w, act).ledger)
  {
    var j := JournalOf(w.log);
    if Observe(j, w.ledger, act.look).Some? {
      var prior := if j.None? then None else Parse(j.value);
      AdvanceOnlyGrows(SavedJournal(prior, act.look), ReadLedger(w.ledger, prior, act.look).value, act.look);
    }
  }

  // Retained disk time and network bytes never decrease over a run, whatever is observed and wherever ticks are cut off.
  lemma {:induction false} LedgerRises(acts: seq<Act>, i: nat, k: nat)
    requires i <= k <= |acts|
    ensures LedgerGrown(After(acts[..i]).ledger, After(acts[..k]).ledger)
    ensures LedgerGrown(None, After(acts[..k]).ledger)
    decreases k
  {
    if k > 0 {
      assert acts[..k][..k - 1] == acts[..k - 1] && acts[..k][k - 1] == acts[k - 1];
      LedgerRises(acts, if i < k then i else k - 1, k - 1);
      ActGrowsLedger(After(acts[..k - 1]), acts[k - 1]);
    }
  }

  // ---- permits ----

  ghost predicate Capped(log: seq<Step>, maxStarts: int) {
    forall k :: 0 <= k < |log| && log[k].Save? ==> log[k].state.lifecycle.startCount <= maxStarts
  }

  ghost predicate CapInv(log: seq<Step>, maxStarts: int) { Capped(log, maxStarts) && StartCount(log) <= maxStarts }

  lemma StepKeepsCapped(first: bool, log: seq<Step>, step: Step, input: Input, env: Environment, maxStarts: int)
    requires CapInv(log, maxStarts) && AllGood(log) && Honest(input) && Legal(first, log, step, input, env)
    requires input.permit.Some? ==> input.permit.value.maxStarts == maxStarts
    ensures CapInv(log + [step], maxStarts)
  {
    StepKeepsCap(first, log, step, input, env, maxStarts);
    JournalOfSnoc(log, step);
  }

  predicate SamePermit(act: Act, permit: Permit) { act.look.permit.Some? ==> act.look.permit.value == permit }

  lemma ActKeepsCapped(w: World, act: Act, permit: Permit)
    requires Sound(w.log, w.clock) && Admissible(w, act) && SamePermit(act, permit) && CapInv(w.log, permit.maxStarts)
    ensures CapInv(Perform(w, act).log, permit.maxStarts)
  {
    if Observe(JournalOf(w.log), w.ledger, act.look).Some? {
      var input := Observe(JournalOf(w.log), w.ledger, act.look).value.0;
      forall f, l, step | Sound(l, input.nowMs) && CapInv(l, permit.maxStarts) && Legal(f, l, step, input, EnvOf(act))
        ensures CapInv(l + [step], permit.maxStarts)
      {
        StepKeepsCapped(f, l, step, input, EnvOf(act), permit.maxStarts);
      }
      ActInduction((f, l) => CapInv(l, permit.maxStarts), w, act);
    }
  }

  // Under one permit the journal never counts more starts than it allows.
  lemma StartsNeverExceedPermit(acts: seq<Act>, permit: Permit)
    requires Allowed(acts) && ParsedPermit(permit)
    requires forall k :: 0 <= k < |acts| ==> SamePermit(acts[k], permit)
    ensures Capped(After(acts).log, permit.maxStarts)
  {
    var inv := (w: World) => CapInv(w.log, permit.maxStarts);
    var given := (w: World, act: Act) => SamePermit(act, permit);
    forall w: World, act: Act | Sound(w.log, w.clock) && Admissible(w, act) && given(w, act) && inv(w) ensures inv(Perform(w, act)) {
      ActKeepsCapped(w, act, permit);
    }
    RunInduction(inv, given, acts);
  }

  ghost predicate Budgeted(log: seq<Step>, bound: int) {
    forall k :: 0 <= k < |log| && log[k].Save? ==> log[k].state.lifecycle.cumulativeRuntimeMs <= bound
  }

  ghost predicate SpendInv(log: seq<Step>, ledger: Option<Ledger>, maxRuntimeMs: int, overrunMs: nat) {
    RuntimeInv(JournalOf(log), ledger, maxRuntimeMs, overrunMs) && Budgeted(log, maxRuntimeMs + overrunMs)
  }

  predicate MayCharge(first: bool, log: seq<Step>, ledger: Ledger, input: Input, bound: int) {
    first ==> Charged(JournalOf(log), ledger, input, bound)
  }

  lemma StepKeepsSpending(first: bool, log: seq<Step>, step: Step, input: Input, env: Environment,
                          ledger: Ledger, maxRuntimeMs: int, overrunMs: nat)
    requires SpendInv(log, Some(ledger), maxRuntimeMs, overrunMs) && AllGood(log) && Honest(input)
    requires MayCharge(first, log, ledger, input, maxRuntimeMs + overrunMs) && Legal(first, log, step, input, env)
    requires input.permit.Some? ==> input.permit.value.maxRuntimeMs == maxRuntimeMs
    ensures SpendInv(log + [step], Some(ledger), maxRuntimeMs, overrunMs)
  {
    StepKeepsRuntime(first, log, step, input, env, ledger, maxRuntimeMs, overrunMs);
    JournalOfSnoc(log, step);
  }

  // The invariant of an act's path: the ledger is the one just read, and the first step may charge it.
  ghost predicate SpendStep(first: bool, log: seq<Step>, ledger: Ledger, input: Input, maxRuntimeMs: int, overrunMs: nat) {
    SpendInv(log, Some(ledger), maxRuntimeMs, overrunMs) && MayCharge(first, log, ledger, input, maxRuntimeMs + overrunMs)
  }

  lemma SpendStepKept(first: bool, log: seq<Step>, step: Step, input: Input, env: Environment,
                      ledger: Ledger, maxRuntimeMs: int, overrunMs: nat)
    requires Sound(log, input.nowMs) && Honest(input) && Legal(first, log, step, input, env)
    requires SpendStep(first, log, ledger, input, maxRuntimeMs, overrunMs)
    requires input.permit.Some? ==> input.permit.value.maxRuntimeMs == maxRuntimeMs
    ensures SpendStep(false, log + [step], ledger, input, maxRuntimeMs, overrunMs)
  {
    StepKeepsSpending(first, log, step, input, env, ledger, maxRuntimeMs, overrunMs);
  }

  lemma ActKeepsSpending(w: World, act: Act, permit: Permit, overrunMs: nat)
    requires Sound(w.log, w.clock) && Admissible(w, act) && SamePermit(act, permit)
    requires SeenUnderGrant(JournalOf(w.log), act.look, overrunMs)
    requires SpendInv(w.log, w.ledger, permit.maxRuntimeMs, overrunMs)
    ensures SpendInv(Perform(w, act).log, Perform(w, act).ledger, permit.maxRuntimeMs, overrunMs)
  {
    var j, max := JournalOf(w.log), permit.maxRuntimeMs;
    if Observe(j, w.ledger, act.look).Some? {
      var (input, ledger) := Observe(j, w.ledger, act.look).value;
      ObservedCharge(w, act, permit, overrunMs);
      ActIsPath(w, act);
      var inv := (f: bool, l: seq<Step>) => SpendStep(f, l, ledger, input, max, overrunMs);
      forall f, l, step | Sound(l, input.nowMs) && inv(f, l) && Legal(f, l, step, input, EnvOf(act)) ensures inv(false, l + [step]) {
        SpendStepKept(f, l, step, input, EnvOf(act), ledger, max, overrunMs);
      }
      ActInduction(inv, w, act);
    }
  }

  lemma ObservedCharge(w: World, act: Act, permit: Permit, overrunMs: nat)
    requires Sound(w.log, w.clock) && SeenUnderGrant(JournalOf(w.log), act.look, overrunMs)
    requires SpendInv(w.log, w.ledger, permit.maxRuntimeMs, overrunMs) && Observe(JournalOf(w.log), w.ledger, act.look).Some?
    ensures var (input, ledger) := Observe(JournalOf(w.log), w.ledger, act.look).value;
            && SpendInv(w.log, Some(ledger), permit.maxRuntimeMs, overrunMs)
            && MayCharge(true, w.log, ledger, input, permit.maxRuntimeMs + overrunMs)
  {
    GoodJournal(w.log);
    ObservationCharges(JournalOf(w.log), w.ledger, act.look, permit.maxRuntimeMs, overrunMs);
  }

  // Recorded runtime never exceeds the permit by more than the largest single overrun past a grant deadline.
  lemma RuntimeWithinPermit(acts: seq<Act>, permit: Permit, overrunMs: nat)
    requires Allowed(acts) && ParsedPermit(permit)
    requires forall k :: 0 <= k < |acts| ==> SamePermit(acts[k], permit)
    requires forall k :: 0 <= k < |acts| ==> SeenUnderGrant(JournalOf(After(acts[..k]).log), acts[k].look, overrunMs)
    ensures Budgeted(After(acts).log, permit.maxRuntimeMs + overrunMs)
  {
    var inv := (w: World) => SpendInv(w.log, w.ledger, permit.maxRuntimeMs, overrunMs);
    var given := (w: World, act: Act) => SamePermit(act, permit) && SeenUnderGrant(JournalOf(w.log), act.look, overrunMs);
    forall w: World, act: Act | Sound(w.log, w.clock) && Admissible(w, act) && given(w, act) && inv(w) ensures inv(Perform(w, act)) {
      ActKeepsSpending(w, act, permit, overrunMs);
    }
    RunInduction(inv, given, acts);
  }

  // ---- graceful stops ----

  lemma StopIsRested(log: seq<Step>, s: State, input: Input, clock: int, graceMs: int)
    requires HistoryInv(log, clock) && clock <= input.nowMs && Honest(input) && GracefulStop(Save(IntentSave, s))
    requires LegalIntent(JournalOf(log), s, input) && input.config.timing.idleGraceMs >= graceMs
    ensures RestedStop(log + [Save(IntentSave, s)], graceMs)
  {
    var longer := log + [Save(IntentSave, s)];
    JournalOfSnoc(log, Save(IntentSave, s));
    var start, end := GracefulStopRests(log, s, input, clock);
    var all := Recorded(longer);
    assert all[start].complete && all[end].complete;
  }

  lemma RestedSnoc(log: seq<Step>, step: Step, graceMs: int)
    requires StopsRested(log, graceMs) && (GracefulStop(step) ==> RestedStop(log + [step], graceMs))
    ensures StopsRested(log + [step], graceMs)
  {
    var longer := log + [step];
    assert longer[..|log| + 1] == longer;
    assert forall k :: 0 <= k < |log| ==> longer[..k + 1] == log[..k + 1] && longer[k] == log[k];
  }

  // What the graceful-stop theorem carries along: the evidence of the run, and the stops journaled so far.
  ghost predicate RestInv(log: seq<Step>, clock: int, graceMs: int) {
    HistoryInv(log, clock) && StopsRested(log, graceMs)
  }

  lemma StepKeepsRested(first: bool, log: seq<Step>, step: Step, input: Input, env: Environment, graceMs: int)
    requires Sound(log, input.nowMs) && RestInv(log, input.nowMs, graceMs) && Honest(input) && OnlyControllerStarts(input)
    requires Legal(first, log, step, input, env) && input.config.timing.idleGraceMs >= graceMs
    ensures RestInv(log + [step], input.nowMs, graceMs)
  {
    StepKeepsHistory(first, log, step, input, env, input.nowMs);
    if GracefulStop(step) {
      StopIsRested(log, step.state, input, input.nowMs, graceMs);
    }
    RestedSnoc(log, step, graceMs);
  }

  lemma LaterRest(log: seq<Step>, clock: int, later: int, graceMs: int)
    requires RestInv(log, clock, graceMs) && clock <= later
    ensures RestInv(log, later, graceMs)
  {
    var j := JournalOf(log);
    if j.Some? {
      MoveKeepsEvidence(Recorded(log), Resumes(log), j.value.lifecycle, j.value.lifecycle, clock, later);
    }
  }

  // Only the controller starts the VM, and the configured grace is at least this long.
  predicate Graceful(w: World, act: Act, graceMs: int) {
    var observed := Observe(JournalOf(w.log), w.ledger, act.look);
    act.look.config.timing.idleGraceMs >= graceMs && (observed.Some? ==> OnlyControllerStarts(observed.value.0))
  }

  lemma ActKeepsRested(w: World, act: Act, graceMs: int)
    requires Sound(w.log, w.clock) && Admissible(w, act) && Graceful(w, act, graceMs) && RestInv(w.log, w.clock, graceMs)
    ensures RestInv(Perform(w, act).log, act.look.nowMs, graceMs)
  {
    LaterRest(w.log, w.clock, act.look.nowMs, graceMs);
    if Observe(JournalOf(w.log), w.ledger, act.look).Some? {
      var input := Observe(JournalOf(w.log), w.ledger, act.look).value.0;
      ActIsPath(w, act);
      var inv := (f: bool, l: seq<Step>) => RestInv(l, input.nowMs, graceMs);
      forall f, l, step | Sound(l, input.nowMs) && inv(f, l) && Legal(f, l, step, input, EnvOf(act)) ensures inv(false, l + [step]) {
        StepKeepsRested(f, l, step, input, EnvOf(act), graceMs);
      }
      ActInduction(inv, w, act);
    }
  }

  lemma NoStopsYet(graceMs: int)
    ensures RestInv([], 0, graceMs)
  {
  }

  // In runs where only the controller starts the VM, every graceful stop it journals rests on two recorded idle
  // observations of the running generation at least the grace apart, with no recorded interruption and no resume
  // between them.
  lemma GracefulStopsRest(acts: seq<Act>, graceMs: int)
    requires Allowed(acts)
    requires forall k :: 0 <= k < |acts| ==> Graceful(After(acts[..k]), acts[k], graceMs)
    ensures StopsRested(After(acts).log, graceMs)
  {
    var given := (w: World, act: Act) => Graceful(w, act, graceMs);
    var inv := (w: World) => RestInv(w.log, w.clock, graceMs);
    forall w: World, act: Act | Sound(w.log, w.clock) && Admissible(w, act) && given(w, act) && inv(w) ensures inv(Perform(w, act)) {
      ActKeepsRested(w, act, graceMs);
    }
    NoStopsYet(graceMs);
    RunInduction(inv, given, acts);
  }
}
