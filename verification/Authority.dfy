/** Under what authority the provider is called, and what the controller itself can never trip over. */
module Authority {
  import opened Contracts
  import opened Lifecycle
  import opened Controller
  import opened Journaling
  import opened Invariants

  // The permit in force matches the saved authorization and holds its operation; it is unexpired, or the
  // operation is a recovery stop or delete; and the effect's own deadline has not passed, except for a stop,
  // a delete and a start whose VM is still stopped.
  predicate AuthorizedCall(effect: Effect, saved: Authorization, input: Input) {
    && !effect.NoEffect? && saved.operation == RequiredOperation(effect)
    && input.permit.Some?
    && input.permit.value.identity == saved.identity == input.identity
    && input.permit.value.permitId == saved.permitId && input.permit.value.expiresAtMs == saved.permitExpiresAtMs
    && saved.operation in input.permit.value.operations
    && (input.nowMs < saved.permitExpiresAtMs
        || ((effect.StopVm? || effect.DeleteVm?) && saved.recoveryAllowed && input.permit.value.recoveryAllowed))
    && (|| saved.effectDeadlineMs.None? || input.nowMs <= saved.effectDeadlineMs.value
        || effect.StopVm? || effect.DeleteVm? || (effect.StartVm? && input.provider.vmStatus == VmStopped))
  }

  predicate EmitsAuthorized(steps: seq<Step>, input: Input) {
    forall k :: 0 <= k < |steps| && steps[k].Emit? ==>
      && k > 0 && steps[k - 1].Save? && steps[k - 1].kind == EmittingSave && steps[k - 1].state.pendingEffect.Some?
      && AuthorizedCall(steps[k].effect, steps[k - 1].state.pendingEffect.value.authorization, input)
  }

  // An effect that passes both checks may be handed to the provider.
  lemma CheckedIsAuthorized(p: PendingEffect, identity: Identity, input: Input)
    requires PendingAuthorized(p, identity) && AuthorizationProblem(p, input).None? && !IsStale(p, input)
    ensures AuthorizedCall(p.effect, p.authorization, input)
  {
  }

  predicate AllSaves(steps: seq<Step>) { forall k :: 0 <= k < |steps| ==> steps[k].Save? }

  lemma OneCall(emitting: State, emit: Step, outcome: seq<Step>, input: Input)
    requires emitting.pendingEffect.Some? && emit.Emit? && AllSaves(outcome)
    requires AuthorizedCall(emit.effect, emitting.pendingEffect.value.authorization, input)
    ensures EmitsAuthorized([Save(EmittingSave, emitting), emit] + outcome, input)
  {
    var steps := [Save(EmittingSave, emitting), emit] + outcome;
    assert forall k :: 2 <= k < |steps| ==> steps[k] == outcome[k - 2];
  }

  lemma OutcomeSaves(s: State, reply: ExecReply, input: Input)
    requires s.pendingEffect.Some?
    ensures AllSaves(OutcomePlan(s, reply, input).steps)
  {
  }

  lemma ExecuteAuthorized(s: State, input: Input, env: Environment)
    requires s.pendingEffect.Some? && PendingAuthorized(s.pendingEffect.value, s.identity)
    ensures EmitsAuthorized(ExecutePlan(s, input, env).steps, input)
  {
    var pending := s.pendingEffect.value;
    if AuthorizationProblem(pending, input).None? && !IsStale(pending, input) {
      CheckedIsAuthorized(pending, s.identity, input);
      OutcomeSaves(EmittingState(s), env.execute, input);
      OneCall(EmittingState(s), Emit(pending.effect, env.execute), OutcomePlan(EmittingState(s), env.execute, input).steps, input);
    }
  }

  lemma PrependSave(step: Step, steps: seq<Step>, input: Input)
    requires step.Save? && EmitsAuthorized(steps, input)
    ensures EmitsAuthorized([step] + steps, input)
  {
    var longer := [step] + steps;
    forall k | 0 <= k < |longer| && longer[k].Emit?
      ensures k > 0 && longer[k - 1].Save? && longer[k - 1].kind == EmittingSave && longer[k - 1].state.pendingEffect.Some?
      ensures AuthorizedCall(longer[k].effect, longer[k - 1].state.pendingEffect.value.authorization, input)
    {
      assert longer[k] == steps[k - 1] && longer[k - 1] == steps[k - 2];
    }
  }

  lemma RecordAuthorized(decision: Decision, journal: Journal, readbacks: seq<Readback>, input: Input, env: Environment)
    requires !decision.effect.NoEffect?
    ensures EmitsAuthorized(RecordPlan(decision, journal, readbacks, input, env).steps, input)
  {
    if Permits(input.permit, RequiredOperation(decision.effect)) {
      var s := RecordedState(decision, journal, readbacks, input);
      if InvariantsHold(s) {
        ExecuteAuthorized(s, input, env);
        PrependSave(Save(IntentSave, s), ExecutePlan(s, input, env).steps, input);
      }
    }
  }

  // Whatever journal a tick finds, every provider call it makes is authorized.
  lemma EveryCallIsAuthorized(j: Option<State>, input: Input, env: Environment, dryRun: bool)
    ensures EmitsAuthorized(TickPlan(j, input, env, dryRun).steps, input)
  {
    if j.Some? && Parse(j.value).Some? {
      var prior := Parse(j.value).value;
      if prior.identity == input.identity && prior.pendingEffect.Some? && !dryRun {
        PendingCallAuthorized(prior, input, env);
      } else if prior.identity == input.identity && prior.pendingEffect.None? {
        FreshCallAuthorized(Some(prior), input, env, dryRun);
      }
    } else if j.None? {
      FreshCallAuthorized(None, input, env, dryRun);
    }
  }

  lemma FreshCallAuthorized(prior: Option<State>, input: Input, env: Environment, dryRun: bool)
    requires prior.Some? ==> prior.value.pendingEffect.None?
    ensures EmitsAuthorized(FreshPlan(prior, input, env, dryRun).steps, input)
  {
    var journal := if prior.None? then input.journal else Merged(input.journal);
    var readbacks := if prior.None? then [] else prior.value.readbacks;
    var decision := DecideLifecycle(input.(journal := journal));
    if !decision.effect.NoEffect? {
      RecordAuthorized(decision, journal, readbacks, input, env);
    }
  }

  lemma PendingCallAuthorized(prior: State, input: Input, env: Environment)
    requires InvariantsHold(prior) && prior.pendingEffect.Some?
    ensures EmitsAuthorized(PendingPlan(prior, input, env).steps, input)
  {
    ExecuteAuthorized(prior, input, env);
    ReconcileCallAuthorized(prior, input, env);
  }

  lemma WaitCallsNothing(s: State, refusal: CapacityRefusal, kind: IntentKind, input: Input)
    requires s.pendingEffect.Some?
    ensures EmitsAuthorized(WaitPlan(s, refusal, kind, input).steps, input)
  {
  }

  lemma RetryAuthorized(prior: State, input: Input, env: Environment)
    requires prior.pendingEffect.Some? && PendingAuthorized(prior.pendingEffect.value, prior.identity)
    ensures EmitsAuthorized([Save(RetrySave, RetryState(prior))] + ExecutePlan(RetryState(prior), input, env).steps, input)
  {
    ExecuteAuthorized(RetryState(prior), input, env);
    PrependSave(Save(RetrySave, RetryState(prior)), ExecutePlan(RetryState(prior), input, env).steps, input);
  }

  lemma ReconcileCallAuthorized(prior: State, input: Input, env: Environment)
    requires InvariantsHold(prior) && prior.pendingEffect.Some?
    ensures EmitsAuthorized(ReconcilePlan(prior, input, env).steps, input)
  {
    if env.reconcile.Reconciled? {
      var reply := env.reconcile;
      var withReadback := prior.(readbacks := WithReadback(prior.readbacks, reply.readback));
      var merged := Merged(input.journal);
      if reply.capacityRefusal.Some? {
        WaitCallsNothing(withReadback.(lifecycle := merged), reply.capacityRefusal.value, StartIntent, input);
        WaitCallsNothing(withReadback, reply.capacityRefusal.value, CreateIntent, input);
      }
      RecordAuthorized(RetireDecision(merged), merged.(outstandingIntent := None), withReadback.readbacks, input, env);
      RetryAuthorized(prior, input, env);
    }
  }

  // ---- no internal failure ----

  predicate CallFailed(steps: seq<Step>, env: Environment) {
    exists k :: 0 <= k < |steps| && steps[k].Emit?
      && (|| env.execute.ExecThrew? || (env.execute.ExecReturned? && env.execute.eventLost)
          || (env.execute.ExecRefused? && KindOf(steps[k].effect).None?))
  }

  lemma WaitNeverThrows(s: State, refusal: CapacityRefusal, kind: IntentKind, input: Input)
    requires s.pendingEffect.Some? && GoodState(s) && KindOf(s.pendingEffect.value.effect) == Some(kind)
    ensures WaitPlan(s, refusal, kind, input).status == TickWaiting
  {
  }

  lemma OutcomeThrowsOnlyWithCall(s: State, input: Input, env: Environment)
    requires s.pendingEffect.Some? && GoodState(s) && OutcomePlan(s, env.execute, input).status == TickThrew
    ensures env.execute.ExecThrew? || (env.execute.ExecReturned? && env.execute.eventLost)
            || (env.execute.ExecRefused? && KindOf(s.pendingEffect.value.effect).None?)
  {
    if env.execute.ExecRefused? && KindOf(s.pendingEffect.value.effect).Some? {
      WaitNeverThrows(s, env.execute.refusal, KindOf(s.pendingEffect.value.effect).value, input);
    }
  }

  lemma ExecuteThrowsOnlyWithCall(s: State, input: Input, env: Environment)
    requires s.pendingEffect.Some? && GoodState(s) && ExecutePlan(s, input, env).status == TickThrew
    ensures CallFailed(ExecutePlan(s, input, env).steps, env)
  {
    var emitting := EmittingState(s);
    assert GoodState(emitting);
    OutcomeThrowsOnlyWithCall(emitting, input, env);
    assert ExecutePlan(s, input, env).steps[1] == Emit(s.pendingEffect.value.effect, env.execute);
  }

  lemma RecordThrowsOnlyWithCall(decision: Decision, journal: Journal, readbacks: seq<Readback>, input: Input, env: Environment)
    requires !decision.effect.NoEffect? && Permits(input.permit, RequiredOperation(decision.effect))
    requires GoodState(RecordedState(decision, journal, readbacks, input))
    requires RecordPlan(decision, journal, readbacks, input, env).status == TickThrew
    ensures CallFailed(RecordPlan(decision, journal, readbacks, input, env).steps, env)
  {
    var s := RecordedState(decision, journal, readbacks, input);
    ParsedInvariants(s);
    ExecuteThrowsOnlyWithCall(s, input, env);
    var inner := ExecutePlan(s, input, env).steps;
    var k :| 0 <= k < |inner| && inner[k].Emit?
      && (|| env.execute.ExecThrew? || (env.execute.ExecReturned? && env.execute.eventLost)
          || (env.execute.ExecRefused? && KindOf(inner[k].effect).None?));
    assert RecordPlan(decision, journal, readbacks, input, env).steps[k + 1] == inner[k];
  }

  lemma ParsedInvariants(s: State)
    requires GoodState(s)
    ensures InvariantsHold(s) && |s.readbacks| <= 100 && Merged(s.lifecycle) == s.lifecycle
  {
  }

  lemma FreshNeverThrowsAlone(prior: Option<State>, input: Input, env: Environment, dryRun: bool)
    requires Honest(input) && SeenAfter(prior, input)
    requires prior.Some? ==> GoodState(prior.value) && prior.value.pendingEffect.None?
    requires FreshPlan(prior, input, env, dryRun).status == TickThrew
    ensures CallFailed(FreshPlan(prior, input, env, dryRun).steps, env)
  {
    BaseIsGood(prior, input);
    var base, readbacks := BaseJournal(prior, input), Readbacks(prior);
    var decision := DecideLifecycle(input.(journal := base));
    if !decision.effect.NoEffect? && !dryRun {
      DecisionFits(input, base);
      RecordedIsGood(decision, base, readbacks, input);
      RecordThrowsOnlyWithCall(decision, base, readbacks, input, env);
    }
  }

  lemma RetireNeverThrowsAlone(prior: State, readbacks: seq<Readback>, input: Input, env: Environment)
    requires Honest(input) && SeenFrom(prior.lifecycle, input) && GoodState(prior) && |readbacks| <= 100
    requires prior.pendingEffect.Some? && CanRetireStoppedStart(prior.pendingEffect.value, input)
    ensures var merged := Merged(input.journal);
            var plan := RecordPlan(RetireDecision(merged), merged.(outstandingIntent := None), readbacks, input, env);
            plan.status == TickThrew ==> CallFailed(plan.steps, env)
  {
    BaseIsGood(Some(prior), input);
    var merged := Merged(input.journal);
    var plan := RecordPlan(RetireDecision(merged), merged.(outstandingIntent := None), readbacks, input, env);
    RecordedIsGood(RetireDecision(merged), merged.(outstandingIntent := None), readbacks, input);
    if plan.status == TickThrew {
      RecordThrowsOnlyWithCall(RetireDecision(merged), merged.(outstandingIntent := None), readbacks, input, env);
    }
  }

  lemma ReconcileNeverThrowsAlone(prior: State, input: Input, env: Environment)
    requires Honest(input) && SeenFrom(prior.lifecycle, input) && GoodState(prior) && prior.pendingEffect.Some?
    requires env.reconcile.Reconciled? && !env.reconcile.retry
    ensures ReconcilePlan(prior, input, env).status == TickThrew ==> CallFailed(ReconcilePlan(prior, input, env).steps, env)
  {
    var pending, reply := prior.pendingEffect.value, env.reconcile;
    BaseIsGood(Some(prior), input);
    var withReadback := prior.(readbacks := WithReadback(prior.readbacks, reply.readback));
    var merged := withReadback.(lifecycle := Merged(input.journal));
    if reply.capacityRefusal.Some? && reply.retireStoppedStart && pending.effect.StartVm? && SettledOwned(input, VmStopped) {
      assert GoodState(merged);
      WaitNeverThrows(merged, reply.capacityRefusal.value, StartIntent, input);
    } else if reply.retireStoppedStart && CanRetireStoppedStart(pending, input) {
      RetireNeverThrowsAlone(prior, merged.readbacks, input, env);
    } else if reply.capacityRefusal.Some? && pending.effect.CreateVm? && input.provider.complete && ProvenAbsent(input.provider) {
      WaitNeverThrows(withReadback, reply.capacityRefusal.value, CreateIntent, input);
    }
  }

  // Over a good journal a tick fails only because a readback or the provider call itself failed: no state
  // invariant, regression check or generation check of the controller ever stops it.
  lemma OnlyTheProviderFails(j: Option<State>, input: Input, env: Environment, dryRun: bool)
    requires Honest(input) && SeenAfter(j, input) && NoRetry(env)
    requires j.Some? ==> GoodState(j.value) && j.value.identity == input.identity
    requires TickPlan(j, input, env, dryRun).status == TickThrew
    ensures env.reconcile.ReconcileThrew? || CallFailed(TickPlan(j, input, env, dryRun).steps, env)
  {
    if !HasPending(j) {
      FreshNeverThrowsAlone(j, input, env, dryRun);
    } else {
      var prior := j.value;
      ParsedInvariants(prior);
      if prior.pendingEffect.value.stage == IntentStage {
        if ExecutePlan(prior, input, env).status == TickThrew {
          ExecuteThrowsOnlyWithCall(prior, input, env);
        }
      } else if env.reconcile.Reconciled? {
        ReconcileNeverThrowsAlone(prior, input, env);
      }
    }
  }

  predicate NoRetry(env: Environment) { env.reconcile.Reconciled? ==> !env.reconcile.retry }
}
