/**
 The inductive invariant of the controller's journal: every state it writes is read back unchanged, and a
 pending start owns its generation. Each kind of durable step keeps it.
 */
module Invariants {
  import opened Contracts
  import opened Lifecycle
  import opened Controller
  import opened Journaling

  // While start g is pending, startCount is g and every recorded idle observation is older than g.
  predicate GoodPending(p: PendingEffect, journal: Journal) {
    var deadline, started := journal.grantDeadlineMs, journal.grantStartedAtMs;
    match p.effect
    case CreateVm(generation, reserved, _) => generation == reserved && deadline.None? && started.None?
    case AdoptVm(_, _) => false
    case StartVm(generation, deadlineMs) =>
      && journal.startCount == generation && deadline == Some(deadlineMs) && started == Some(p.createdAtMs)
      && (forall e :: e in journal.idleObservations ==> e.generation < generation)
    case RegisterRunner(cutoffMs) => deadline.Some? ==> cutoffMs <= deadline.value
    case BeginDrain(fallbackMs) => deadline.Some? ==> fallbackMs <= deadline.value
    case ResumeAdmission => p.authorization.effectDeadlineMs.Some? && (deadline.Some? ==> p.authorization.effectDeadlineMs == deadline)
    case _ => true
  }

  predicate GoodState(s: State) {
    && Parse(s) == Some(s)
    && (s.pendingEffect.Some? ==> GoodPending(s.pendingEffect.value, s.lifecycle))
  }

  predicate GoodStep(step: Step) { step.Save? ==> GoodState(step.state) }

  predicate AllGood(log: seq<Step>) { forall k :: 0 <= k < |log| ==> GoodStep(log[k]) }

  lemma {:induction false} GoodJournal(log: seq<Step>)
    requires AllGood(log)
    ensures JournalOf(log).Some? ==> GoodState(JournalOf(log).value)
  {
    if log != [] && log[|log| - 1].Emit? {
      GoodJournal(log[..|log| - 1]);
    }
  }

  // The journal a decision is taken on is itself readable and keeps every saved bound.
  lemma BaseIsGood(prior: Option<State>, input: Input)
    requires Honest(input) && SeenAfter(prior, input)
    requires prior.Some? ==> GoodState(prior.value)
    ensures var base := BaseJournal(prior, input);
            && ParsesJournal(base) && |base.idleObservations| <= 100
            && (forall e :: e in base.idleObservations ==> e.generation <= base.startCount)
    ensures prior.Some? && input.provider.vmStatus in {VmAbsent, VmStopped} ==>
              BaseJournal(prior, input).idleObservations == prior.value.lifecycle.idleObservations
  {
    if prior.Some? {
      var saved := prior.value.lifecycle;
      assert saved == Merged(saved);
      assert forall e :: e in input.journal.idleObservations ==>
        e in saved.idleObservations || (e.generation == saved.startCount && input.guest.grant.Some? && e.generation >= 1);
    }
  }

  // A journaled decision starts from a good base and pairs its effect with a matching authorization.
  lemma RecordedIsGood(decision: Decision, base: Journal, readbacks: seq<Readback>, input: Input)
    requires Honest(input) && input.permit.Some? && PermitMatches(input) && |readbacks| <= 100
    requires ParsesJournal(base) && |base.idleObservations| <= 100 && base.outstandingIntent.None?
    requires forall e :: e in base.idleObservations ==> e.generation <= base.startCount
    requires !decision.effect.NoEffect? && EffectFits(decision.effect, base, input)
    ensures GoodState(RecordedState(decision, base, readbacks, input))
  {
  }

  predicate PermitMatches(input: Input)
    requires input.permit.Some?
  {
    input.permit.value.identity == input.identity
  }

  // How every effect the table can choose relates to the journal it was chosen on.
  predicate EffectFits(effect: Effect, base: Journal, input: Input) {
    var deadline := base.grantDeadlineMs;
    match effect
    case NoEffect => false
    case CreateVm(generation, reserved, _) => generation == reserved == base.startCount + 1
    case AdoptVm(_, _) => false
    case StartVm(generation, deadlineMs) => generation == base.startCount + 1 && input.nowMs < deadlineMs
    case RegisterRunner(cutoffMs) => deadline.Some? ==> cutoffMs <= deadline.value
    case BeginDrain(fallbackMs) => deadline.Some? ==> fallbackMs <= deadline.value
    case ResumeAdmission => input.guest.grant.Some? && input.journal.grantDeadlineMs == deadline
    case StopVm(_) => true
    case DeleteVm(generation) => generation >= 1
  }

  // A decision without effect, or one a permit of this controller allows and that fits the journal it was taken on.
  predicate Sanctioned(decided: Input, decision: Decision) {
    decision.effect.NoEffect?
    || (&& decided.permit.Some? && PermitMatches(decided) && Permits(decided.permit, RequiredOperation(decision.effect))
        && EffectFits(decision.effect, decided.journal, decided))
  }

  lemma AuthorizedSanctioned(decided: Input, operation: Operation, decision: Decision)
    requires !decision.effect.NoEffect? ==>
               RequiredOperation(decision.effect) == operation && EffectFits(decision.effect, decided.journal, decided)
    ensures Sanctioned(decided, Authorized(decided, operation, decision))
  {
  }

  lemma StartSanctioned(decided: Input)
    requires ParsedConfig(decided.config)
    ensures Sanctioned(decided, DecideStart(decided))
  {
  }

  lemma RegisterSanctioned(decided: Input)
    requires ParsedConfig(decided.config)
    ensures Sanctioned(decided, DecideRegister(decided, EffectiveGrant(decided)))
  {
  }

  lemma DrainingSanctioned(decided: Input)
    ensures Sanctioned(decided, DecideDraining(decided, EffectiveGrant(decided)))
  {
    var grant := EffectiveGrant(decided);
    AuthorizedSanctioned(decided, OpStop, Decision(Stopping, StopVm(false), GraceEarned));
    if grant.Some? {
      var drain := BeginDrain(DrainDeadlineMs(grant.value.deadlineMs, decided.nowMs));
      AuthorizedSanctioned(decided, OpRegister, Decision(Draining, drain, NotDrainedAgain));
    }
  }

  lemma CleanupSanctioned(decided: Input, decision: Decision)
    requires decision.effect.DeleteVm? && decision.effect.generation >= 1
    ensures Sanctioned(decided, AuthorizedCleanup(decided, decision))
  {
  }

  // The orders the table gives a settled guest outside its start, register and drain branches.
  lemma OrdersSanctioned(decided: Input)
    ensures Sanctioned(decided, Authorized(decided, OpRegister, Decision(Ready, ResumeAdmission, WorkArrivedDuringDrain)))
            || EffectiveGrant(decided).None?
    ensures EffectiveGrant(decided).Some? ==>
              Sanctioned(decided, Authorized(decided, OpRegister, Decision(Draining,
                BeginDrain(DrainDeadlineMs(EffectiveGrant(decided).value.deadlineMs, decided.nowMs)), NoWork)))
  {
    var grant := EffectiveGrant(decided);
    if grant.Some? {
      var drain := BeginDrain(DrainDeadlineMs(grant.value.deadlineMs, decided.nowMs));
      AuthorizedSanctioned(decided, OpRegister, Decision(Draining, drain, NoWork));
      AuthorizedSanctioned(decided, OpRegister, Decision(Ready, ResumeAdmission, WorkArrivedDuringDrain));
    }
  }

  lemma DeletesSanctioned(decided: Input)
    requires decided.journal.startCount >= 0
    ensures Sanctioned(decided, AuthorizedCleanup(decided, Decision(Absent, DeleteVm(Max(1, decided.journal.startCount)), IdleDuringCapacityWait)))
    ensures decided.journal.startCount > 0 ==>
              Sanctioned(decided, AuthorizedCleanup(decided, Decision(Absent, DeleteVm(decided.journal.startCount), IdleStopped)))
  {
    CleanupSanctioned(decided, Decision(Absent, DeleteVm(Max(1, decided.journal.startCount)), IdleDuringCapacityWait));
    if decided.journal.startCount > 0 {
      CleanupSanctioned(decided, Decision(Absent, DeleteVm(decided.journal.startCount), IdleStopped));
    }
  }

  lemma WorkSanctioned(decided: Input)
    requires ParsedConfig(decided.config) && decided.journal.startCount >= 0
    ensures Sanctioned(decided, DecideWork(decided))
  {
    StartSanctioned(decided);
    RegisterSanctioned(decided);
    DrainingSanctioned(decided);
    OrdersSanctioned(decided);
    DeletesSanctioned(decided);
  }

  lemma OwnedSanctioned(decided: Input)
    requires ParsedConfig(decided.config) && decided.journal.startCount >= 0
    ensures Sanctioned(decided, DecideOwned(decided))
  {
    WorkSanctioned(decided);
    if decided.journal.startCount >= 1 {
      CleanupSanctioned(decided, Decision(Absent, DeleteVm(decided.journal.startCount), LifetimeSpentWhileUp));
    }
  }

  lemma CreateSanctioned(decided: Input)
    ensures Sanctioned(decided, DecideCreate(decided))
  {
  }

  lemma EmergencySanctioned(decided: Input)
    ensures Sanctioned(decided, DecideEmergencyStop(decided))
  {
  }

  lemma DecisionSanctioned(decided: Input)
    requires ParsedConfig(decided.config) && decided.journal.outstandingIntent.None? && decided.journal.startCount >= 0
    ensures Sanctioned(decided, DecideLifecycle(decided))
  {
    OwnedSanctioned(decided);
    CreateSanctioned(decided);
    EmergencySanctioned(decided);
  }

  lemma DecisionFits(input: Input, base: Journal)
    requires ParsedConfig(input.config) && base.outstandingIntent.None? && base.startCount >= 0
    requires input.journal.grantDeadlineMs == base.grantDeadlineMs
    requires !DecideLifecycle(input.(journal := base)).effect.NoEffect?
    ensures EffectFits(DecideLifecycle(input.(journal := base)).effect, base, input)
    ensures input.permit.Some? && PermitMatches(input)
    ensures Permits(input.permit, RequiredOperation(DecideLifecycle(input.(journal := base)).effect))
  {
    var decided := input.(journal := base);
    DecisionSanctioned(decided);
  }

  lemma IntentIsGood(prior: Option<State>, s: State, input: Input)
    requires Honest(input) && LegalIntent(prior, s, input)
    requires prior.Some? ==> GoodState(prior.value)
    ensures GoodState(s)
  {
    BaseIsGood(prior, input);
    var base := BaseJournal(prior, input);
    if HasPending(prior) {
      var unpended := base.(outstandingIntent := None);
      assert base.startCount >= 1;
      RecordedIsGood(RetireDecision(base), unpended, s.readbacks, input);
    } else {
      DecisionFits(input, base);
      RecordedIsGood(DecideLifecycle(input.(journal := base)), base, Readbacks(prior), input);
    }
  }

  lemma WaitingIsGood(s: State, w: State, refusal: CapacityRefusal, kind: IntentKind, input: Input)
    requires s.pendingEffect.Some? && GoodState(s) && InvariantsHold(w) && Readable(refusal)
    requires KindOf(s.pendingEffect.value.effect) == Some(kind)
    requires Some(w) == WaitingState(s, refusal, kind, input)
    ensures GoodState(w)
  {
    DetailEmptyExactly(s.lifecycle.capacityWait, refusal, kind, input.nowMs, input.config.timing.pollIntervalMs);
  }

  // The state a refusal leaves behind is readable exactly when the refusal does not name a single empty quota.
  lemma WaitingReadableExactly(s: State, w: State, refusal: CapacityRefusal, kind: IntentKind, input: Input)
    requires s.pendingEffect.Some? && GoodState(s) && InvariantsHold(w)
    requires KindOf(s.pendingEffect.value.effect) == Some(kind)
    requires Some(w) == WaitingState(s, refusal, kind, input)
    ensures Parse(w).Some? <==> Readable(refusal)
  {
    DetailEmptyExactly(s.lifecycle.capacityWait, refusal, kind, input.nowMs, input.config.timing.pollIntervalMs);
    if Readable(refusal) {
      WaitingIsGood(s, w, refusal, kind, input);
    }
  }

  // A refusal that names one quota, the empty string, makes the journal unreadable.
  lemma EmptyQuotaUnreadable(s: State, w: State, kind: IntentKind, input: Input)
    requires s.pendingEffect.Some? && GoodState(s) && InvariantsHold(w)
    requires KindOf(s.pendingEffect.value.effect) == Some(kind)
    requires Some(w) == WaitingState(s, CapacityRefusal([""]), kind, input)
    ensures Parse(w).None?
  {
    WaitingReadableExactly(s, w, CapacityRefusal([""]), kind, input);
  }

  lemma WaitingStepIsGood(first: bool, log: seq<Step>, prior: State, s: State, input: Input, env: Environment)
    requires Honest(input) && ReadableRefusals(env) && GoodState(prior) && prior.pendingEffect.Some?
    requires LegalWaiting(first, log, prior, s, input, env)
    ensures GoodState(s)
  {
    var effect := prior.pendingEffect.value.effect;
    var emitted := LastEmitReply(log);
    if emitted.Some? && emitted.value.ExecRefused? && emitted.value == env.execute
       && Some(s) == WaitingState(prior, emitted.value.refusal, KindOf(effect).value, input) {
      WaitingIsGood(prior, s, emitted.value.refusal, KindOf(effect).value, input);
    } else if effect.StartVm? {
      BaseIsGood(Some(prior), input);
      var merged := prior.(lifecycle := Merged(input.journal), readbacks := s.readbacks);
      assert GoodState(merged);
      WaitingIsGood(merged, s, env.reconcile.capacityRefusal.value, StartIntent, input);
    } else {
      WaitingIsGood(prior.(readbacks := s.readbacks), s, env.reconcile.capacityRefusal.value, CreateIntent, input);
    }
  }

  lemma ResultIsGood(prior: State, reply: ExecReply)
    requires GoodState(prior) && prior.pendingEffect.Some? && reply.ExecReturned? && InvariantsHold(ResultState(prior, reply))
    ensures GoodState(ResultState(prior, reply))
  {
  }

  lemma ReconciledIsGood(prior: State, readback: Readback)
    requires GoodState(prior) && prior.pendingEffect.Some?
    ensures GoodState(ReconciledState(prior, readback))
  {
  }

  lemma MoveIsGood(first: bool, log: seq<Step>, prior: State, kind: SaveKind, s: State, input: Input, env: Environment)
    requires Honest(input) && ReadableRefusals(env) && GoodState(prior) && prior.pendingEffect.Some?
    requires LegalMove(first, log, prior, kind, s, input, env)
    ensures GoodState(s)
  {
    if kind == WaitingSave {
      WaitingStepIsGood(first, log, prior, s, input, env);
    } else if kind == ResultSave {
      ResultIsGood(prior, LastEmitReply(log).value);
    } else if kind == ReconciledSave {
      ReconciledIsGood(prior, env.reconcile.readback);
    }
  }

  lemma ObservedIsGood(prior: Option<State>, s: State, input: Input)
    requires Honest(input) && SeenAfter(prior, input) && !HasPending(prior)
    requires prior.Some? ==> GoodState(prior.value)
    requires s == State(input.identity, BaseJournal(prior, input), None, Readbacks(prior)) && Parse(s).Some?
    ensures GoodState(s)
  {
    BaseIsGood(prior, input);
  }

  lemma AmbiguousIsGood(s: State)
    requires s.pendingEffect.Some? && GoodState(s)
    ensures GoodState(AmbiguousState(s))
  {
  }

  lemma SaveIsGood(first: bool, log: seq<Step>, kind: SaveKind, s: State, input: Input, env: Environment)
    requires AllGood(log) && Honest(input) && ReadableRefusals(env)
    requires LegalSave(first, log, kind, s, input, env)
    ensures GoodState(s)
  {
    GoodJournal(log);
    var prior := JournalOf(log);
    match kind
    case ObservedSave => ObservedIsGood(prior, s, input);
    case IntentSave => IntentIsGood(prior, s, input);
    case AmbiguousSave =>
      if LateFailure(log, s) {
        assert GoodStep(log[|log| - 3]);
        AmbiguousIsGood(log[|log| - 3].state);
      } else {
        AmbiguousIsGood(prior.value);
      }
    case DirectStopSave =>
    case _ => MoveIsGood(first, log, prior.value, kind, s, input, env);
  }

  // Every durable step of a tick writes a state that parseControllerState reads back unchanged.
  lemma StepIsGood(first: bool, log: seq<Step>, step: Step, input: Input, env: Environment)
    requires AllGood(log) && Honest(input) && ReadableRefusals(env)
    requires Legal(first, log, step, input, env)
    ensures AllGood(log + [step])
  {
    if step.Save? {
      SaveIsGood(first, log, step.kind, step.state, input, env);
    }
  }
}
