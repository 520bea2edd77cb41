/** Bounded recovery: two ticks after a grant deadline a stuck effect is gone and an emergency stop is journaled. */
module Liveness {
  import opened Contracts
  import opened Lifecycle
  import opened Controller
  import opened Accounting
  import opened Journaling
  import opened Invariants
  import opened Runs

  // Effects that may stay pending while the VM runs.
  predicate MayBeStuck(p: PendingEffect) {
    p.effect.RegisterRunner? || p.effect.BeginDrain? || p.effect.ResumeAdmission? || (p.effect.StartVm? && p.stage == EmittingStage)
  }

  predicate SeenRunning(input: Input) { SettledOwned(input, VmRunning) }

  // The one owned VM is neither stopped nor absent, whatever else the reading lacks.
  predicate SeenUp(input: Input) { ExactlyOwned(input.provider) && input.provider.vmStatus !in {VmStopped, VmAbsent} }

  // The permit still is the one the effect was authorized under, and still allows recovery and stop.
  predicate RecoveryPermitted(saved: Authorization, input: Input) {
    && input.permit.Some? && saved.identity == input.identity == input.permit.value.identity
    && saved.permitId == input.permit.value.permitId && saved.permitExpiresAtMs == input.permit.value.expiresAtMs
    && saved.operation in input.permit.value.operations && OpStop in input.permit.value.operations
    && saved.recoveryAllowed && input.permit.value.recoveryAllowed
    && input.permit.value.issuedAtMs <= input.nowMs
  }

  // The first tick past the deadline drops the stuck effect and nothing else, whatever the guest or queue reports.
  lemma StuckEffectAbandoned(prior: State, input: Input, env: Environment)
    requires GoodState(prior) && Honest(input) && SeenFrom(prior.lifecycle, input) && prior.identity == input.identity
    requires prior.pendingEffect.Some? && MayBeStuck(prior.pendingEffect.value)
    requires RecoveryPermitted(prior.pendingEffect.value.authorization, input)
    requires prior.lifecycle.grantDeadlineMs.Some? && prior.lifecycle.grantDeadlineMs.value < input.nowMs
    requires SeenRunning(input)
    ensures TickPlan(Some(prior), input, env, false).steps == [Save(AbandonedSave, AbandonedState(prior))]
    ensures GoodState(AbandonedState(prior))
  {
    var pending := prior.pendingEffect.value;
    assert IsStale(pending, input);
  }

  // With nothing pending past the deadline, the next tick journals an emergency stop and hands it to the provider,
  // even when the VM is starting, stopping or in error, and when the observations are incomplete.
  lemma EmergencyStopFollows(prior: State, saved: Authorization, input: Input, env: Environment)
    requires GoodState(prior) && prior.pendingEffect.None?
    requires Honest(input) && SeenFrom(prior.lifecycle, input) && prior.identity == input.identity
    requires RecoveryPermitted(saved, input)
    requires prior.lifecycle.grantDeadlineMs.Some? && prior.lifecycle.grantDeadlineMs.value <= input.nowMs
    requires prior.lifecycle.startCount > 0 && SeenUp(input)
    ensures var steps := TickPlan(Some(prior), input, env, false).steps;
            && |steps| >= 3 && steps[0].Save? && steps[0].kind == IntentSave
            && steps[0].state.pendingEffect.Some? && steps[0].state.pendingEffect.value.effect == StopVm(true)
            && steps[0].state.lifecycle.state == Stopping
            && steps[1] == Save(EmittingSave, EmittingState(steps[0].state))
            && steps[2] == Emit(StopVm(true), env.execute)
  {
    var base := Merged(input.journal);
    BaseIsGood(Some(prior), input);
    EmergencyDecided(input.(journal := base));
    DecisionPlanned(prior, Decision(Stopping, StopVm(true), LifetimeReached), input, env);
    EmergencyRecorded(base, prior.readbacks, input, env);
  }

  // With nothing pending, the tick records what the table decides.
  lemma DecisionPlanned(prior: State, decision: Decision, input: Input, env: Environment)
    requires Parse(prior) == Some(prior) && prior.pendingEffect.None? && prior.identity == input.identity
    requires SeenFrom(prior.lifecycle, input) && !decision.effect.NoEffect?
    requires DecideLifecycle(input.(journal := Merged(input.journal))) == decision
    ensures TickPlan(Some(prior), input, env, false) == RecordPlan(decision, Merged(input.journal), prior.readbacks, input, env)
  {
  }

  lemma EmergencyRecorded(base: Journal, readbacks: seq<Readback>, input: Input, env: Environment)
    requires Honest(input) && input.permit.Some? && input.permit.value.identity == input.identity && |readbacks| <= 100
    requires OpStop in input.permit.value.operations && input.permit.value.recoveryAllowed
    requires ParsesJournal(base) && |base.idleObservations| <= 100 && base.outstandingIntent.None?
    requires forall e :: e in base.idleObservations ==> e.generation <= base.startCount
    ensures var decision := Decision(Stopping, StopVm(true), LifetimeReached);
            var steps := RecordPlan(decision, base, readbacks, input, env).steps;
            var s := RecordedState(decision, base, readbacks, input);
            && |steps| >= 3 && steps[0] == Save(IntentSave, s) && s.pendingEffect.value.effect == StopVm(true)
            && s.lifecycle.state == Stopping
            && steps[1] == Save(EmittingSave, EmittingState(s)) && steps[2] == Emit(StopVm(true), env.execute)
  {
    var decision := Decision(Stopping, StopVm(true), LifetimeReached);
    RecordedIsGood(decision, base, readbacks, input);
    var s := RecordedState(decision, base, readbacks, input);
    assert InvariantsHold(s);
    assert AuthorizationProblem(s.pendingEffect.value, input).None?;
  }

  lemma EmergencyDecided(input: Input)
    requires Honest(input) && input.permit.Some? && input.permit.value.identity == input.identity
    requires OpStop in input.permit.value.operations && input.permit.value.recoveryAllowed && input.permit.value.issuedAtMs <= input.nowMs
    requires LifetimeOver(input) && input.journal.startCount > 0 && input.journal.outstandingIntent.None? && SeenUp(input)
    ensures DecideLifecycle(input) == Decision(Stopping, StopVm(true), LifetimeReached)
  {
  }

  // Both ticks together, for any two observations of the VM after the deadline.
  lemma StuckEffectEndsInEmergencyStop(prior: State, first: Input, second: Input, env: Environment, later: Environment)
    requires GoodState(prior) && Honest(first) && SeenFrom(prior.lifecycle, first) && prior.identity == first.identity
    requires prior.pendingEffect.Some? && MayBeStuck(prior.pendingEffect.value) && prior.lifecycle.startCount > 0
    requires prior.lifecycle.grantDeadlineMs.Some? && prior.lifecycle.grantDeadlineMs.value < first.nowMs < second.nowMs
    requires SeenRunning(first) && SeenUp(second)
    requires RecoveryPermitted(prior.pendingEffect.value.authorization, first)
    requires RecoveryPermitted(prior.pendingEffect.value.authorization, second)
    requires Honest(second) && prior.identity == second.identity && SeenFrom(AbandonedState(prior).lifecycle, second)
    ensures var steps := TickPlan(Some(prior), first, env, false).steps;
            && |steps| == 1 && steps[0].Save? && steps[0].kind == AbandonedSave
            && var next := TickPlan(Some(steps[0].state), second, later, false).steps;
               && |next| >= 3 && next[0].Save? && next[0].kind == IntentSave
               && next[0].state.pendingEffect.Some? && next[0].state.pendingEffect.value.effect == StopVm(true)
               && next[2] == Emit(StopVm(true), later.execute)
  {
    StuckEffectAbandoned(prior, first, env);
    EmergencyStopFollows(AbandonedState(prior), prior.pendingEffect.value.authorization, second, later);
  }

  // ---- in a run ----

  // A live tick that is not cut short.
  predicate Live(act: Act) { act.Tick? && !act.dryRun }

  function Observed(w: World, act: Act): Option<Input> {
    var observed := Observe(JournalOf(w.log), w.ledger, act.look);
    if observed.None? then None else Some(observed.value.0)
  }

  predicate Uncut(w: World, act: Act) {
    Live(act) && Observed(w, act).Some? && act.cut >= |TickPlan(JournalOf(w.log), Observed(w, act).value, act.env, false).steps|
  }

  // In whatever state a run has left a stuck effect past its grant deadline.
  predicate Stuck(w: World) {
    var j := JournalOf(w.log);
    && HasPending(j) && MayBeStuck(j.value.pendingEffect.value) && j.value.lifecycle.startCount > 0
    && j.value.lifecycle.grantDeadlineMs.Some?
  }

  // An observation after the deadline, under the configuration and permit the effect was authorized under.
  predicate PastDeadline(w: World, input: Input)
    requires Stuck(w)
  {
    var s := JournalOf(w.log).value;
    && s.identity == input.identity && s.lifecycle.grantDeadlineMs.value < input.nowMs
    && RecoveryPermitted(s.pendingEffect.value.authorization, input)
  }

  lemma LiveTick(w: World, act: Act)
    requires Uncut(w, act)
    ensures Perform(w, act).log == w.log + TickPlan(JournalOf(w.log), Observed(w, act).value, act.env, false).steps
  {
    var steps := TickPlan(JournalOf(w.log), Observed(w, act).value, act.env, false).steps;
    assert steps[..|steps|] == steps;
  }

  lemma SoundTick(w: World, act: Act) returns (input: Input)
    requires Sound(w.log, w.clock) && Admissible(w, act) && Uncut(w, act)
    ensures Some(input) == Observed(w, act) && Honest(input) && SeenAfter(JournalOf(w.log), input) && input.nowMs == act.look.nowMs
    ensures JournalOf(w.log).Some? ==> GoodState(JournalOf(w.log).value)
    ensures Sound(Perform(w, act).log, act.look.nowMs)
  {
    input := Observed(w, act).value;
    GoodJournal(w.log);
    ActIsPath(w, act);
    ActKeepsSound(w, act);
  }

  lemma AbandoningTick(w: World, a: Act)
    requires Sound(w.log, w.clock) && Admissible(w, a) && Uncut(w, a) && Stuck(w)
    requires var first := Observed(w, a).value; PastDeadline(w, first) && SeenRunning(first)
    ensures Perform(w, a).log == w.log + [Save(AbandonedSave, AbandonedState(JournalOf(w.log).value))]
    ensures JournalOf(Perform(w, a).log) == Some(AbandonedState(JournalOf(w.log).value))
  {
    var prior := JournalOf(w.log).value;
    var first := SoundTick(w, a);
    StuckEffectAbandoned(prior, first, a.env);
    LiveTick(w, a);
    JournalOfSnoc(w.log, Save(AbandonedSave, AbandonedState(prior)));
  }

  // What two ticks of a run do about a stuck effect: the first drops it, the second journals and emits the stop.
  predicate EndsInEmergencyStop(before: seq<Step>, after: seq<Step>) {
    var n := |before|;
    && |after| >= n + 4 && before == after[..n]
    && after[n].Save? && after[n].kind == AbandonedSave && after[n].state.pendingEffect.None?
    && after[n + 1].Save? && after[n + 1].kind == IntentSave && after[n + 1].state.pendingEffect.Some?
    && after[n + 1].state.pendingEffect.value.effect == StopVm(true) && after[n + 1].state.lifecycle.state == Stopping
    && after[n + 3].Emit? && after[n + 3].effect == StopVm(true)
  }

  lemma StopsAppended(before: seq<Step>, abandoned: Step, steps: seq<Step>)
    requires abandoned.Save? && abandoned.kind == AbandonedSave && abandoned.state.pendingEffect.None?
    requires |steps| >= 3 && steps[0].Save? && steps[0].kind == IntentSave && steps[0].state.pendingEffect.Some?
    requires steps[0].state.pendingEffect.value.effect == StopVm(true) && steps[0].state.lifecycle.state == Stopping
    requires steps[2].Emit? && steps[2].effect == StopVm(true)
    ensures EndsInEmergencyStop(before, before + [abandoned] + steps)
  {
    var after, n := before + [abandoned] + steps, |before|;
    assert after[n + 1] == steps[0] && after[n + 3] == steps[2];
  }

  // Two live ticks in a row over a stuck effect: the VM is seen running and then up, both times past the deadline and
  // under the configuration and permit of the effect.
  predicate Recovers(w: World, a: Act, b: Act) {
    && Stuck(w) && Admissible(w, a) && Uncut(w, a)
    && (var first := Observed(w, a).value; PastDeadline(w, first) && SeenRunning(first))
    && Admissible(Perform(w, a), b) && Uncut(Perform(w, a), b)
    && (var second := Observed(Perform(w, a), b).value; PastDeadline(w, second) && SeenUp(second))
  }

  lemma TwoTicks(w: World, a: Act, b: Act)
    requires Sound(w.log, w.clock) && Recovers(w, a, b)
    ensures EndsInEmergencyStop(w.log, Perform(Perform(w, a), b).log)
  {
    var prior := JournalOf(w.log).value;
    var first := SoundTick(w, a);
    AbandoningTick(w, a);
    StuckEffectAbandoned(prior, first, a.env);
    var v := Perform(w, a);
    var second := SoundTick(v, b);
    EmergencyStopFollows(AbandonedState(prior), prior.pendingEffect.value.authorization, second, b.env);
    LiveTick(v, b);
    StopsAppended(w.log, Save(AbandonedSave, AbandonedState(prior)), TickPlan(JournalOf(v.log), second, b.env, false).steps);
  }

  // In every run: a stuck effect past its grant deadline ends in an emergency stop after two live ticks.
  lemma StuckRunEndsInEmergencyStop(acts: seq<Act>, a: Act, b: Act)
    requires Allowed(acts) && Recovers(After(acts), a, b)
    ensures EndsInEmergencyStop(After(acts).log, After(acts + [a, b]).log)
  {
    RunIsSound(acts);
    AfterSnoc(acts, a);
    AfterSnoc(acts + [a], b);
    assert acts + [a, b] == acts + [a] + [b];
    TwoTicks(After(acts), a, b);
  }
}
