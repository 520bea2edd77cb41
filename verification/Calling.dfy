/**
 When a tick calls the provider, and what it does with an effect it cannot call (packages/runner/src/controller.ts, tick,
 executePendingEffect and reconcile): flat conditions on the saved authorization, the current permit, the time and what
 is observed, each exact.
 */
module Calling {
  import opened Contracts
  import opened Lifecycle
  import opened Controller
  import opened Journaling
  import opened Invariants
  import opened Emissions
  import opened Orders

  // ---- the effect and the permit ----

  // The saved authorization is the one the current permit gives, whatever the time is.
  predicate SamePermit(p: PendingEffect, input: Input) {
    && input.permit.Some?
    && var permit := input.permit.value;
       && p.authorization.identity == input.identity == permit.identity && p.authorization.permitId == permit.permitId
       && p.authorization.permitExpiresAtMs == permit.expiresAtMs && p.authorization.operation in permit.operations
  }

  predicate BothRecover(p: PendingEffect, input: Input) {
    p.authorization.recoveryAllowed && input.permit.Some? && input.permit.value.recoveryAllowed
  }

  predicate CleansUp(effect: Effect) { effect.StopVm? || effect.DeleteVm? }

  // A stop or a delete outlives its permit when both permits allow recovery.
  predicate InForce(p: PendingEffect, input: Input) {
    SamePermit(p, input) && (input.nowMs < input.permit.value.expiresAtMs || (CleansUp(p.effect) && BothRecover(p, input)))
  }

  // A stop or a delete is never too late, and a start is not while its VM is still stopped.
  predicate InTime(p: PendingEffect, input: Input) {
    || CleansUp(p.effect) || p.authorization.effectDeadlineMs.None? || input.nowMs <= p.authorization.effectDeadlineMs.value
    || (p.effect.StartVm? && input.provider.vmStatus == VmStopped)
  }

  // Of an effect in force nothing is lost but the time of its permit.
  predicate OnlyExpired(p: PendingEffect, input: Input) { SamePermit(p, input) && !InForce(p, input) }

  // What a permit that has run out with recovery allowed lets go of: drains, registrations and resumptions whose own time
  // is over, and a late start whose VM is seen running in its generation.
  predicate LetGo(p: PendingEffect, input: Input) {
    && OnlyExpired(p, input) && BothRecover(p, input) && !InTime(p, input)
    && (|| p.effect.BeginDrain? || p.effect.RegisterRunner? || p.effect.ResumeAdmission?
        || (&& p.effect.StartVm? && p.stage == EmittingStage && p.effect.generation == input.journal.startCount
            && TheOwnedVm(input) && input.provider.complete && input.provider.vmStatus == VmRunning && !input.provider.operationInFlight))
  }

  lemma ForceExactly(p: PendingEffect, identity: Identity, input: Input)
    requires PendingAuthorized(p, identity)
    ensures AuthorizationProblem(p, input).None? <==> InForce(p, input)
    ensures IsStale(p, input) <==> !InTime(p, input)
    ensures ExpiredButRetirable(p, input) <==> LetGo(p, input)
  {
  }

  // ---- an effect found pending ----

  ghost predicate Found(prior: State, input: Input) {
    GoodState(prior) && prior.pendingEffect.Some? && prior.identity == input.identity
  }

  lemma FoundPlan(prior: State, input: Input, env: Environment)
    requires Found(prior, input)
    ensures TickPlan(Some(prior), input, env, false) == PendingPlan(prior, input, env)
    ensures PendingAuthorized(prior.pendingEffect.value, prior.identity)
  {
  }

  // What a tick does with a pending effect: it lets it go, holds it blocked, hands it to the provider or asks what became
  // of it, each exactly when the conditions say so.
  lemma FoundExactly(prior: State, input: Input, env: Environment)
    requires Found(prior, input)
    ensures var p, plan := prior.pendingEffect.value, TickPlan(Some(prior), input, env, false);
            && (LetGo(p, input) || (InForce(p, input) && !InTime(p, input)) <==> plan == AbandonPlan(prior))
            && (!InForce(p, input) && !LetGo(p, input) <==> plan == BlockPlan(prior))
            && (InForce(p, input) && InTime(p, input) && p.stage == IntentStage <==> CallsFirst(plan.steps, prior, env))
  {
    var p := prior.pendingEffect.value;
    FoundPlan(prior, input, env);
    ForceExactly(p, prior.identity, input);
    if InForce(p, input) && InTime(p, input) && p.stage == EmittingStage {
      ReconcileStarts(prior, input, env);
    }
  }

  // The emitting record and then the call.
  predicate CallsFirst(steps: seq<Step>, s: State, env: Environment) {
    && |steps| >= 2 && s.pendingEffect.Some? && IsSave(steps[0], EmittingSave)
    && steps[0].state == s.(pendingEffect := Some(s.pendingEffect.value.(stage := EmittingStage)))
    && steps[1] == Emit(s.pendingEffect.value.effect, env.execute)
  }

  lemma ReconcileStarts(prior: State, input: Input, env: Environment)
    requires prior.pendingEffect.Some?
    ensures var steps := ReconcilePlan(prior, input, env).steps;
            steps == [] || (steps[0].Save? && steps[0].kind in {WaitingSave, IntentSave, RetrySave, ReadbackSave, ReconciledSave})
  {
  }

  // ---- an effect already handed to the provider ----

  // The one owned VM, completely observed as stopped, with no operation under way.
  predicate SeenStopped(input: Input) {
    && input.provider.complete && TheOwnedVm(input) && input.provider.vmStatus == VmStopped && !input.provider.operationInFlight
  }

  // A start that left its VM stopped and unused for longer than a boot takes.
  predicate NeverCameUp(p: PendingEffect, input: Input) {
    && p.effect.StartVm? && input.nowMs - p.createdAtMs >= input.config.timing.bootTimeoutMs && SeenStopped(input)
    && input.queue.complete && input.queue.ownedBusy == Some(false)
    && input.guest.complete && input.guest.status == Offline && input.guest.grant.None?
    && input.guest.runnerActive == Some(false) && input.guest.workerActive == Some(false) && AllowsCleanup(input)
  }

  // A capacity refusal read back, that what is observed bears out.
  predicate RefusalSeen(p: PendingEffect, reply: ReconcileReply, input: Input)
    requires reply.Reconciled?
  {
    && reply.capacityRefusal.Some?
    && (|| (p.effect.StartVm? && reply.retireStoppedStart && SeenStopped(input))
        || (&& p.effect.CreateVm? && input.provider.complete && input.provider.vmStatus == VmAbsent
            && input.provider.ownership == OwnAbsent && input.provider.ownedMatches == 0))
  }

  predicate Retired(p: PendingEffect, reply: ReconcileReply, input: Input)
    requires reply.Reconciled?
  {
    reply.retireStoppedStart && reply.capacityRefusal.None? && NeverCameUp(p, input)
  }

  predicate FirstIs(steps: seq<Step>, kind: SaveKind) { steps != [] && IsSave(steps[0], kind) }

  // The steps journal the deletion of this generation, and then do all a fresh order does.
  predicate DeletesFirst(steps: seq<Step>, generation: int) {
    && FirstIs(steps, IntentSave) && steps[0].state.pendingEffect.Some?
    && steps[0].state.pendingEffect.value.effect == DeleteVm(generation)
  }

  lemma RetireExactly(p: PendingEffect, input: Input)
    requires input.permit.Some? ==> ParsedPermit(input.permit.value)
    ensures CanRetireStoppedStart(p, input) <==> NeverCameUp(p, input)
  {
    CleanupExactly(input, Decision(Absent, DeleteVm(1), IdleStopped));
  }

  lemma SeenSame(prior: State, input: Input)
    requires GoodState(prior) && prior.pendingEffect.Some? && SeenFrom(prior.lifecycle, input) && Honest(input)
    ensures RegressionFree(prior.lifecycle, input.journal)
    ensures var merged := Merged(input.journal);
            && merged.startCount == prior.lifecycle.startCount && merged.outstandingIntent == prior.lifecycle.outstandingIntent
            && forall e :: e in merged.idleObservations ==> e.generation <= merged.startCount
  {
    BaseIsGood(Some(prior), input);
  }

  lemma WaitHappens(s: State, refusal: CapacityRefusal, kind: IntentKind, input: Input)
    requires s.pendingEffect.Some? && KindOf(s.pendingEffect.value.effect) == Some(kind)
    requires s.pendingEffect.value.effect.StartVm? ==> s.lifecycle.startCount == s.pendingEffect.value.effect.generation
    requires forall e :: e in s.lifecycle.idleObservations ==>
               e.generation < s.lifecycle.startCount || (kind == CreateIntent && e.generation <= s.lifecycle.startCount)
    ensures FirstIs(WaitPlan(s, refusal, kind, input).steps, WaitingSave) && WaitPlan(s, refusal, kind, input).status == TickWaiting
  {
  }

  lemma RefusedStartWaits(prior: State, input: Input, readbacks: seq<Readback>, refusal: CapacityRefusal)
    requires GoodState(prior) && prior.pendingEffect.Some? && prior.pendingEffect.value.effect.StartVm?
    requires Honest(input) && SeenFrom(prior.lifecycle, input) && input.provider.vmStatus == VmStopped
    ensures var s := prior.(lifecycle := Merged(input.journal), readbacks := readbacks);
            FirstIs(WaitPlan(s, refusal, StartIntent, input).steps, WaitingSave)
            && WaitPlan(s, refusal, StartIntent, input).status == TickWaiting
  {
    BaseIsGood(Some(prior), input);
    assert BaseJournal(Some(prior), input) == Merged(input.journal);
    WaitHappens(prior.(lifecycle := Merged(input.journal), readbacks := readbacks), refusal, StartIntent, input);
  }

  lemma RefusedCreateWaits(prior: State, input: Input, readbacks: seq<Readback>, refusal: CapacityRefusal)
    requires GoodState(prior) && prior.pendingEffect.Some? && prior.pendingEffect.value.effect.CreateVm?
    ensures var s := prior.(readbacks := readbacks);
            FirstIs(WaitPlan(s, refusal, CreateIntent, input).steps, WaitingSave)
            && WaitPlan(s, refusal, CreateIntent, input).status == TickWaiting
  {
    WaitHappens(prior.(readbacks := readbacks), refusal, CreateIntent, input);
  }

  lemma RetiredDeletes(prior: State, input: Input, readbacks: seq<Readback>, env: Environment)
    requires GoodState(prior) && prior.pendingEffect.Some? && prior.pendingEffect.value.effect.StartVm?
    requires Honest(input) && SeenFrom(prior.lifecycle, input) && AllowsCleanup(input)
    ensures var merged := Merged(input.journal);
            var steps := RecordPlan(RetireDecision(merged), merged.(outstandingIntent := None), readbacks, input, env).steps;
            DeletesFirst(steps, prior.lifecycle.startCount)
  {
    SeenSame(prior, input);
    var merged := Merged(input.journal);
    assert InvariantsHold(RecordedState(RetireDecision(merged), merged.(outstandingIntent := None), readbacks, input));
  }

  lemma AnswerWaits(prior: State, input: Input, env: Environment)
    requires Found(prior, input) && Honest(input) && SeenFrom(prior.lifecycle, input) && env.reconcile.Reconciled?
    requires RefusalSeen(prior.pendingEffect.value, env.reconcile, input)
    ensures var plan := ReconcilePlan(prior, input, env); FirstIs(plan.steps, WaitingSave) && plan.status == TickWaiting
  {
    var p, reply := prior.pendingEffect.value, env.reconcile;
    RetireExactly(p, input);
    SeenSame(prior, input);
    var readbacks := WithReadback(prior.readbacks, reply.readback);
    if p.effect.StartVm? {
      RefusedStartWaits(prior, input, readbacks, reply.capacityRefusal.value);
    } else {
      RefusedCreateWaits(prior, input, readbacks, reply.capacityRefusal.value);
    }
  }

  lemma AnswerRetires(prior: State, input: Input, env: Environment)
    requires Found(prior, input) && Honest(input) && SeenFrom(prior.lifecycle, input) && env.reconcile.Reconciled?
    requires Retired(prior.pendingEffect.value, env.reconcile, input)
    ensures var plan := ReconcilePlan(prior, input, env);
            DeletesFirst(plan.steps, prior.lifecycle.startCount) && plan.status != TickPending
  {
    RetireExactly(prior.pendingEffect.value, input);
    SeenSame(prior, input);
    var merged, readbacks := Merged(input.journal), WithReadback(prior.readbacks, env.reconcile.readback);
    RetiredDeletes(prior, input, readbacks, env);
    RecordStatus(RetireDecision(merged), merged.(outstandingIntent := None), readbacks, input, env);
  }

  lemma RecordStatus(decision: Decision, journal: Journal, readbacks: seq<Readback>, input: Input, env: Environment)
    requires !decision.effect.NoEffect?
    ensures RecordPlan(decision, journal, readbacks, input, env).status != TickPending
  {
  }

  lemma OtherAnswers(prior: State, input: Input, env: Environment)
    requires Found(prior, input) && Honest(input) && env.reconcile.Reconciled?
    requires var p := prior.pendingEffect.value; !RefusalSeen(p, env.reconcile, input) && !Retired(p, env.reconcile, input)
    ensures var reply, plan := env.reconcile, ReconcilePlan(prior, input, env);
            if reply.resolved then plan == Plan([Save(ReconciledSave, ReconciledState(prior, reply.readback))], TickReconciled)
            else if reply.retry then FirstIs(plan.steps, RetrySave) && plan.status != TickPending
            else plan.status == TickPending && !FirstIs(plan.steps, WaitingSave) && !FirstIs(plan.steps, IntentSave)
                 && !FirstIs(plan.steps, RetrySave) && !FirstIs(plan.steps, ReconciledSave)
  {
    RetireExactly(prior.pendingEffect.value, input);
  }

  // The answer to a question about an emitted effect is acted on in one of five ways, each exactly when: a refusal that is
  // borne out starts a wait; a start that never came up is replaced by the deletion of its VM; the rest is called again,
  // settled, or left pending with what was read back.
  lemma AnswerExactly(prior: State, input: Input, env: Environment)
    requires Found(prior, input) && Honest(input) && SeenFrom(prior.lifecycle, input) && env.reconcile.Reconciled?
    requires var p := prior.pendingEffect.value; p.stage == EmittingStage && InForce(p, input) && InTime(p, input)
    ensures var p, reply, plan := prior.pendingEffect.value, env.reconcile, TickPlan(Some(prior), input, env, false);
            var waits, retires := RefusalSeen(p, reply, input), Retired(p, reply, input);
            && (waits <==> FirstIs(plan.steps, WaitingSave))
            && (retires <==> FirstIs(plan.steps, IntentSave))
            && (retires ==> DeletesFirst(plan.steps, prior.lifecycle.startCount))
            && (!waits && !retires && !reply.resolved && reply.retry <==> FirstIs(plan.steps, RetrySave))
            && (!waits && !retires && reply.resolved <==> FirstIs(plan.steps, ReconciledSave))
            && (!waits && !retires && !reply.resolved && !reply.retry <==> plan.status == TickPending)
  {
    var p, reply := prior.pendingEffect.value, env.reconcile;
    FoundPlan(prior, input, env);
    ForceExactly(p, prior.identity, input);
    if RefusalSeen(p, reply, input) {
      AnswerWaits(prior, input, env);
    } else if Retired(p, reply, input) {
      AnswerRetires(prior, input, env);
    } else {
      OtherAnswers(prior, input, env);
    }
  }

  // ---- what is written of an answer ----

  // The newest hundred readbacks, this one the last.
  predicate KeptLast(before: seq<Readback>, readback: Readback, after: seq<Readback>) {
    var all := before + [readback];
    |after| == Min(100, |all|) && after == all[|all| - |after|..]
  }

  // What is read back is kept, unless the effect goes back to be called again.
  lemma ReadbackKept(prior: State, input: Input, env: Environment)
    requires Found(prior, input) && env.reconcile.Reconciled? && env.reconcile.readback.Some?
    requires var p := prior.pendingEffect.value; p.stage == EmittingStage && InForce(p, input) && InTime(p, input)
    ensures var steps := TickPlan(Some(prior), input, env, false).steps;
            steps != [] && !FirstIs(steps, RetrySave) ==>
              steps[0].Save? && KeptLast(prior.readbacks, env.reconcile.readback, steps[0].state.readbacks)
  {
    FoundPlan(prior, input, env);
    ForceExactly(prior.pendingEffect.value, prior.identity, input);
  }

  // The same effect under the same authorization, whatever has become of its status.
  predicate SameCall(p: PendingEffect, q: PendingEffect) {
    && p.id == q.id && p.effect == q.effect && p.createdAtMs == q.createdAtMs && p.authorization == q.authorization
    && p.stage == q.stage
  }

  // A call that returned: settled or still pending, with the operation it named and what it read back; state, counters,
  // times and wait stay as they were.
  lemma ReturnedExactly(s: State, reply: ExecReply, input: Input)
    requires GoodState(s) && s.pendingEffect.Some? && reply.ExecReturned?
    ensures var steps := OutcomePlan(s, reply, input).steps;
            && FirstIs(steps, ResultSave)
            && var r := steps[0].state;
               && r.identity == s.identity && r.lifecycle.(outstandingIntent := s.lifecycle.outstandingIntent) == s.lifecycle
               && (reply.resolved <==> r.pendingEffect.None?) && (reply.resolved ==> r.lifecycle.outstandingIntent.None?)
               && (!reply.resolved ==>
                     && r.lifecycle == s.lifecycle && SameCall(s.pendingEffect.value, r.pendingEffect.value)
                     && (reply.operationId.Some? ==> r.pendingEffect.value.operationId == reply.operationId)
                     && (reply.operationId.None? ==> r.pendingEffect == s.pendingEffect))
               && (if reply.readback.Some? then KeptLast(s.readbacks, reply.readback, r.readbacks) else r.readbacks == s.readbacks)
  {
    assert InvariantsHold(ResultState(s, reply));
  }

  // A call that failed, or was refused for capacity although it was neither a create nor a start, leaves its effect pending
  // and ambiguous. A create or a start that is refused waits.
  lemma FailedExactly(s: State, reply: ExecReply, input: Input)
    requires GoodState(s) && s.pendingEffect.Some? && !reply.ExecReturned?
    ensures var p, plan := s.pendingEffect.value, OutcomePlan(s, reply, input);
            if reply.ExecRefused? && (p.effect.CreateVm? || p.effect.StartVm?) then
              FirstIs(plan.steps, WaitingSave) && plan.status == TickWaiting
            else
              && FirstIs(plan.steps, AmbiguousSave) && |plan.steps| == 1 && plan.status == TickThrew
              && var a := plan.steps[0].state;
                 && a.pendingEffect.Some? && SameCall(p, a.pendingEffect.value) && a.pendingEffect.value.status == AmbiguousStatus
                 && a.pendingEffect.value.operationId == p.operationId && a.readbacks == s.readbacks
                 && (s.lifecycle.outstandingIntent.Some? ==>
                       a.lifecycle.outstandingIntent == Some(s.lifecycle.outstandingIntent.value.(status := AmbiguousStatus)))
  {
    var kind := KindOf(s.pendingEffect.value.effect);
    if reply.ExecRefused? && kind.Some? {
      WaitHappens(s, reply.refusal, kind.value, input);
    }
  }

  // An effect that is to be called again is as it was before its call.
  lemma CalledAgain(prior: State)
    requires GoodState(prior) && prior.pendingEffect.Some?
    ensures var p, again := prior.pendingEffect.value, RetryState(prior);
            && again.pendingEffect == Some(p.(stage := IntentStage, status := Pending))
            && again.lifecycle.outstandingIntent.Some? == prior.lifecycle.outstandingIntent.Some?
            && (again.lifecycle.outstandingIntent.Some? ==> again.lifecycle.outstandingIntent.value.status == Pending)
            && GoodState(again)
  {
  }

  // ---- a fresh order ----

  // A drain whose guest's own grant is over, while the journal knows of no earlier end.
  predicate DrainTooLate(effect: Effect, nowMs: int) { effect.BeginDrain? && effect.fallbackDeadlineMs < nowMs }

  lemma WorkAuthority(input: Input)
    requires Honest(input) && !DecideWork(input).effect.NoEffect?
    ensures var effect := DecideWork(input).effect;
            !effect.AdoptVm? && (Allows(input, RequiredOperation(effect)) || (effect.DeleteVm? && AllowsCleanup(input)))
  {
    WorkNeverCreates(input);
    match DecideWork(input).effect
    case StartVm(generation, deadlineMs) => WorkStarts(input, generation, deadlineMs);
    case RegisterRunner(cutoffMs) => WorkRegisters(input, cutoffMs);
    case BeginDrain(fallbackMs) => WorkDrains(input, fallbackMs);
    case ResumeAdmission => WorkResumes(input);
    case StopVm(_) => WorkStops(input);
    case DeleteVm(generation) => WorkDeletes(input, generation);
    case _ =>
  }

  // Every order stands on a permit in force, or on one with recovery when it is a delete or an emergency stop.
  lemma OrderAuthority(input: Input)
    requires Honest(input) && input.journal.outstandingIntent.None? && !DecideLifecycle(input).effect.NoEffect?
    ensures var effect := DecideLifecycle(input).effect;
            && !effect.AdoptVm?
            && (|| Allows(input, RequiredOperation(effect)) || (effect.DeleteVm? && AllowsCleanup(input))
                || (effect == StopVm(true) && AllowsRecoveryStop(input)))
  {
    OwnedExactly(input);
    if Settled(input) {
      RestExactly(input);
      if AtRest(input) {
        WorkAuthority(input);
      }
    } else {
      CreateAsked(input);
    }
  }

  lemma OrderDeadline(input: Input)
    requires Honest(input) && input.journal.outstandingIntent.None? && input.permit.Some?
    requires !DecideLifecycle(input).effect.NoEffect? && !DecideLifecycle(input).effect.AdoptVm?
    ensures var effect := DecideLifecycle(input).effect;
            var ends := AuthorizationFor(effect, input).effectDeadlineMs;
            (CleansUp(effect) || ends.None? || input.nowMs <= ends.value || (effect.StartVm? && input.provider.vmStatus == VmStopped))
            <==> !DrainTooLate(effect, input.nowMs)
  {
    var effect := DecideLifecycle(input).effect;
    match effect
    case CreateVm(generation, reserved, deadlineMs) => CreateExactly(input, generation, reserved, deadlineMs);
    case StartVm(generation, deadlineMs) => StartExactly(input, generation, deadlineMs);
    case RegisterRunner(cutoffMs) =>
      RegisterExactly(input, cutoffMs);
      assert input.(nowMs := input.nowMs) == input;
      assert input.nowMs <= cutoffMs <==> JobStillFits(input.(nowMs := input.nowMs));
    case ResumeAdmission => ResumeExactly(input);
    case _ =>
  }

  lemma RecordedCalls(decision: Decision, base: Journal, readbacks: seq<Readback>, input: Input, env: Environment)
    requires !decision.effect.NoEffect? && input.permit.Some? && Permits(input.permit, RequiredOperation(decision.effect))
    requires InvariantsHold(RecordedState(decision, base, readbacks, input))
    requires InForce(RecordedState(decision, base, readbacks, input).pendingEffect.value, input)
    ensures var s, plan := RecordedState(decision, base, readbacks, input), RecordPlan(decision, base, readbacks, input, env);
            && FirstIs(plan.steps, IntentSave) && plan.steps[0].state == s
            && (if InTime(s.pendingEffect.value, input) then CallsFirst(plan.steps[1..], s, env)
                else plan.status == TickAbandoned && plan.steps == [Save(IntentSave, s), Save(AbandonedSave, AbandonedState(s))])
  {
    var s := RecordedState(decision, base, readbacks, input);
    ForceExactly(s.pendingEffect.value, s.identity, input);
    var rest := ExecutePlan(s, input, env);
    assert ([Save(IntentSave, s)] + rest.steps)[1..] == rest.steps;
  }

  // A fresh order is journaled and called in the same tick, but for a drain whose guest's grant is already over: that one
  // is journaled and dropped again.
  lemma OrderCalledExactly(prior: Option<State>, input: Input, env: Environment)
    requires Honest(input) && SeenAfter(prior, input)
    requires prior.Some? ==> GoodState(prior.value) && prior.value.pendingEffect.None? && prior.value.identity == input.identity
    requires !DecideLifecycle(input.(journal := BaseJournal(prior, input))).effect.NoEffect?
    ensures var decision, plan := DecideLifecycle(input.(journal := BaseJournal(prior, input))), TickPlan(prior, input, env, false);
            && FirstIs(plan.steps, IntentSave) && input.permit.Some?
            && plan.steps[0].state == RecordedState(decision, BaseJournal(prior, input), Readbacks(prior), input)
            && (if DrainTooLate(decision.effect, input.nowMs) then
                  plan.status == TickAbandoned && |plan.steps| == 2 && IsSave(plan.steps[1], AbandonedSave)
                else CallsFirst(plan.steps[1..], plan.steps[0].state, env))
  {
    var base := BaseJournal(prior, input);
    var decided := input.(journal := base);
    var decision := DecideLifecycle(decided);
    OrderAuthority(decided);
    OrderDeadline(decided);
    DecisionFits(input, base);
    BaseIsGood(prior, input);
    var s := RecordedState(decision, base, Readbacks(prior), input);
    RecordedIsGood(decision, base, Readbacks(prior), input);
    RecordedForce(decision, base, Readbacks(prior), input);
    RecordedCalls(decision, base, Readbacks(prior), input, env);
    FreshIsRecord(prior, input, env);
  }

  lemma RecordedForce(decision: Decision, base: Journal, readbacks: seq<Readback>, input: Input)
    requires !decision.effect.NoEffect? && input.permit.Some? && ParsedPermit(input.permit.value) && PermitMatches(input)
    requires base.grantDeadlineMs == input.journal.grantDeadlineMs
    requires var decided := input.(journal := base);
             || Allows(decided, RequiredOperation(decision.effect)) || (decision.effect.DeleteVm? && AllowsCleanup(decided))
             || (decision.effect == StopVm(true) && AllowsRecoveryStop(decided))
    ensures var p := RecordedState(decision, base, readbacks, input).pendingEffect.value;
            && InForce(p, input) && p.effect == decision.effect
            && p.authorization.effectDeadlineMs == AuthorizationFor(decision.effect, input.(journal := base)).effectDeadlineMs
  {
  }

  lemma FreshIsRecord(prior: Option<State>, input: Input, env: Environment)
    requires SeenAfter(prior, input)
    requires prior.Some? ==> GoodState(prior.value) && prior.value.pendingEffect.None? && prior.value.identity == input.identity
    requires !DecideLifecycle(input.(journal := BaseJournal(prior, input))).effect.NoEffect?
    ensures var base := BaseJournal(prior, input);
            TickPlan(prior, input, env, false)
            == RecordPlan(DecideLifecycle(input.(journal := base)), base, Readbacks(prior), input, env)
  {
    if prior.Some? {
      assert RegressionFree(prior.value.lifecycle, input.journal);
    }
  }

  // That is so exactly when the guest's grant, or the journaled deadline, is already over.
  lemma LateDrainExactly(input: Input)
    requires Honest(input) && DecideLifecycle(input).effect.BeginDrain?
    ensures DrainTooLate(DecideLifecycle(input).effect, input.nowMs) <==> EndsBy(input, input.nowMs - 1)
  {
    DrainExactly(input, DecideLifecycle(input).effect.fallbackDeadlineMs);
  }

  // ---- a tick that orders nothing ----

  // Work is queued, and but for the wait the VM would be created or started.
  predicate OnlyTheWait(input: Input) {
    && Held(input) && FreshQueue(input) && input.queue.complete && input.queue.eligibleQueuedJobs > 0
    && (|| (&& input.provider.vmStatus == VmAbsent && input.provider.ownership == OwnAbsent && input.provider.ownedMatches == 0
            && input.provider.complete && input.journal.outstandingIntent.None?
            && input.journal.capacityWait.value.refusedEffect == CreateIntent)
        || (IdleVm(input, VmStopped) && !GuestUp(input.journal.state)))
  }

  lemma StartHeld(input: Input)
    ensures DecideStart(input).reason == CapacityHeld <==> Held(input)
  {
  }

  lemma CreateHeld(input: Input)
    ensures DecideCreate(input).reason == CapacityHeld
            <==> (&& input.provider.complete && input.queue.complete && input.queue.eligibleQueuedJobs != 0
                  && Held(input) && input.journal.capacityWait.value.refusedEffect == CreateIntent)
  {
  }

  lemma RegisterNotHeld(input: Input)
    ensures DecideRegister(input, EffectiveGrant(input)).reason != CapacityHeld
  {
  }

  lemma DrainingNotHeld(input: Input)
    ensures DecideDraining(input, EffectiveGrant(input)).reason != CapacityHeld
  {
  }

  lemma StoppedNotHeld(input: Input)
    requires input.provider.vmStatus != VmRunning && !(input.provider.vmStatus == VmStopped && input.queue.eligibleQueuedJobs > 0)
    ensures DecideWork(input).reason != CapacityHeld
  {
  }

  lemma DrainingVmNotHeld(input: Input)
    requires input.provider.vmStatus == VmRunning && input.journal.state == Draining
    ensures DecideWork(input).reason != CapacityHeld
  {
    RegisterNotHeld(input);
    DrainingNotHeld(input);
  }

  lemma RunningNotHeld(input: Input)
    requires input.provider.vmStatus == VmRunning && input.journal.state != Draining
    ensures DecideWork(input).reason != CapacityHeld
  {
    RegisterNotHeld(input);
  }

  lemma WorkHeld(input: Input)
    ensures DecideWork(input).reason == CapacityHeld
            <==> input.provider.vmStatus == VmStopped && input.queue.eligibleQueuedJobs > 0 && Held(input)
  {
    if input.provider.vmStatus == VmRunning && input.journal.state == Draining {
      DrainingVmNotHeld(input);
    } else if input.provider.vmStatus == VmRunning {
      RunningNotHeld(input);
    } else if input.provider.vmStatus == VmStopped && input.queue.eligibleQueuedJobs > 0 {
      WorkAsksStart(input);
      StartHeld(input);
    } else {
      StoppedNotHeld(input);
    }
  }

  lemma OwnedHeld(input: Input)
    ensures DecideOwned(input).reason == CapacityHeld
            <==> AtRest(input) && input.provider.vmStatus == VmStopped && input.queue.eligibleQueuedJobs > 0 && Held(input)
  {
    WorkHeld(input);
    if AtRest(input) {
      RestExactly(input);
    }
  }

  // No VM, and nothing outstanding.
  predicate NoVm(input: Input) {
    input.provider.vmStatus == VmAbsent && input.provider.ownership == OwnAbsent && input.provider.ownedMatches == 0
  }

  lemma ElsewhereNotHeld(input: Input)
    requires input.journal.outstandingIntent.None? && !Settled(input) && !(FreshQueue(input) && NoVm(input))
    ensures DecideLifecycle(input).reason != CapacityHeld
  {
  }

  lemma HeldExactly(input: Input)
    requires Honest(input) && input.journal.outstandingIntent.None?
    ensures DecideLifecycle(input).reason == CapacityHeld <==> OnlyTheWait(input)
    ensures OnlyTheWait(input) ==> DecideLifecycle(input).effect.NoEffect?
  {
    if FreshQueue(input) && NoVm(input) {
      CreateAsked(input);
      CreateHeld(input);
    } else if Settled(input) {
      OwnedExactly(input);
      OwnedHeld(input);
      IdleRoutes(input);
    } else {
      ElsewhereNotHeld(input);
      IdleRoutes(input);
    }
  }

  // The state reported with it is the journal's, or that no VM exists.
  lemma HeldState(input: Input)
    requires Honest(input) && input.journal.outstandingIntent.None? && OnlyTheWait(input)
    ensures DecideLifecycle(input).state == if input.provider.vmStatus == VmAbsent then Absent else input.journal.state
  {
    if NoVm(input) {
      CreateAsked(input);
    } else {
      IdleRoutes(input);
      Route(input);
      WorkAsksStart(input);
    }
  }

  // A tick that orders nothing makes one observation durable, and reports waiting exactly when only the wait stands in the
  // way, unless the journal says that a stopped VM is blocked.
  lemma WaitingReported(prior: Option<State>, input: Input, env: Environment)
    requires Honest(input) && SeenAfter(prior, input)
    requires prior.Some? ==> GoodState(prior.value) && prior.value.pendingEffect.None? && prior.value.identity == input.identity
    requires DecideLifecycle(input.(journal := BaseJournal(prior, input))).effect.NoEffect?
    ensures var base, plan := BaseJournal(prior, input), TickPlan(prior, input, env, false);
            && plan.steps == [Save(ObservedSave, State(input.identity, base, None, Readbacks(prior)))]
            && (plan.status == TickWaiting
                <==> OnlyTheWait(input.(journal := base)) && !(input.provider.vmStatus == VmStopped && base.state == Blocked))
  {
    BaseIsGood(prior, input);
    var decided := input.(journal := BaseJournal(prior, input));
    HeldExactly(decided);
    if OnlyTheWait(decided) {
      HeldState(decided);
    }
    if prior.Some? {
      assert RegressionFree(prior.value.lifecycle, input.journal);
    }
  }

  // ---- what a tick refuses to go on from ----

  // Counters that went back, evidence that was lost, or an intent that was not journaled.
  predicate GoesBack(saved: Journal, seen: Journal) {
    || seen.startCount < saved.startCount || seen.cumulativeRuntimeMs < saved.cumulativeRuntimeMs
    || seen.cumulativeCostUsd < saved.cumulativeCostUsd || !(saved.idleObservations <= seen.idleObservations)
    || (seen.outstandingIntent.Some? && seen.outstandingIntent != saved.outstandingIntent)
  }

  // Nothing is written and nothing called over a journal of another controller, or with nothing pending over an observation
  // that goes back behind the journal.
  lemma GoingBackThrows(prior: State, input: Input, env: Environment, dryRun: bool)
    requires GoodState(prior)
    requires prior.identity != input.identity || (prior.pendingEffect.None? && GoesBack(prior.lifecycle, input.journal))
    ensures TickPlan(Some(prior), input, env, dryRun) == Plan([], TickThrew)
  {
  }

  // A dry run writes and calls nothing for an effect it finds or would order.
  lemma DryRunHolds(prior: State, input: Input, env: Environment)
    requires GoodState(prior) && prior.identity == input.identity
    requires prior.pendingEffect.Some?
             || (SeenFrom(prior.lifecycle, input) && !DecideLifecycle(input.(journal := Merged(input.journal))).effect.NoEffect?)
    ensures TickPlan(Some(prior), input, env, true) == Plan([], TickDryRun)
  {
  }
}
