/**
 What becomes of a resolved provider call (packages/runner/src/controller.ts, executePendingEffect). The durable result
 is followed by an event; when that append fails, the failure handler writes the effect back as ambiguous over the
 result. A resolved call stays settled exactly when its event is not lost.
 */
module LostEvents {
  import opened Contracts
  import opened Lifecycle
  import opened Controller
  import opened Accounting
  import opened Journaling
  import opened Runs

  predicate Resolves(reply: ExecReply) { reply.ExecReturned? && reply.resolved }

  predicate Calls(steps: seq<Step>) { exists k :: 0 <= k < |steps| && steps[k].Emit? }

  // The last write has settled the effect exactly when the event was kept, and otherwise has it pending as ambiguous.
  predicate SettledUnlessLost(steps: seq<Step>, reply: ExecReply) {
    && Resolves(reply) && JournalOf(steps).Some?
    && var pending := JournalOf(steps).value.pendingEffect;
       && (pending.None? <==> !reply.eventLost)
       && (pending.Some? ==> pending.value.status == AmbiguousStatus && pending.value.stage == EmittingStage)
  }

  predicate IdleBounded(journal: Journal) {
    forall e :: e in journal.idleObservations ==> e.generation <= journal.startCount
  }

  lemma {:induction false} JournalOfConcat(log: seq<Step>, steps: seq<Step>)
    ensures JournalOf(log + steps) == if JournalOf(steps).Some? then JournalOf(steps) else JournalOf(log)
  {
    if steps == [] {
      assert log + steps == log;
    } else {
      var n := |steps| - 1;
      JournalOfConcat(log, steps[..n]);
      assert log + steps == (log + steps[..n]) + [steps[n]];
      assert steps == steps[..n] + [steps[n]];
      JournalOfSnoc(log + steps[..n], steps[n]);
      JournalOfSnoc(steps[..n], steps[n]);
    }
  }

  lemma ResultKeepsInvariants(s: State, reply: ExecReply)
    requires s.pendingEffect.Some? && Resolves(reply) && IdleBounded(s.lifecycle)
    ensures InvariantsHold(ResultState(s, reply)) && ResultState(s, reply).pendingEffect.None?
  {
  }

  // The writes after a resolved call: the result, and the ambiguous effect over it when the event is lost.
  lemma OutcomeSteps(s: State, reply: ExecReply, input: Input)
    requires s.pendingEffect.Some? && Resolves(reply) && InvariantsHold(ResultState(s, reply))
    ensures OutcomePlan(s, reply, input).steps
            == [Save(ResultSave, ResultState(s, reply))]
               + if reply.eventLost then [Save(AmbiguousSave, AmbiguousState(s))] else []
  {
  }

  // After a resolved call the effect is settled if and only if its event is not lost.
  lemma OutcomeSettledExactly(s: State, reply: ExecReply, input: Input)
    requires s.pendingEffect.Some? && Resolves(reply) && InvariantsHold(ResultState(s, reply))
    ensures var last := JournalOf(OutcomePlan(s, reply, input).steps);
            && last == Some(if reply.eventLost then AmbiguousState(s) else ResultState(s, reply))
            && (last.value.pendingEffect.None? <==> !reply.eventLost)
  {
    OutcomeSteps(s, reply, input);
    var result, ambiguous := Save(ResultSave, ResultState(s, reply)), Save(AmbiguousSave, AmbiguousState(s));
    JournalOfSnoc([], result);
    assert [] + [result] == [result] == [result] + [];
    JournalOfSnoc([result], ambiguous);
  }

  lemma SettledAfter(before: seq<Step>, steps: seq<Step>, reply: ExecReply)
    requires SettledUnlessLost(steps, reply)
    ensures SettledUnlessLost(before + steps, reply)
  {
    JournalOfConcat(before, steps);
  }

  lemma ExecuteSettled(s: State, input: Input, env: Environment)
    requires s.pendingEffect.Some? && Resolves(env.execute) && IdleBounded(s.lifecycle)
    ensures Calls(ExecutePlan(s, input, env).steps) ==> SettledUnlessLost(ExecutePlan(s, input, env).steps, env.execute)
  {
    var pending := s.pendingEffect.value;
    if AuthorizationProblem(pending, input).None? && !IsStale(pending, input) {
      var emitting := EmittingState(s);
      ResultKeepsInvariants(emitting, env.execute);
      OutcomeSettledExactly(emitting, env.execute, input);
      SettledAfter([Save(EmittingSave, emitting), Emit(pending.effect, env.execute)],
                   OutcomePlan(emitting, env.execute, input).steps, env.execute);
    }
  }

  lemma CallsLater(step: Step, rest: seq<Step>)
    requires step.Save?
    ensures Calls([step] + rest) <==> Calls(rest)
  {
    var steps := [step] + rest;
    assert forall k :: 0 < k < |steps| ==> steps[k] == rest[k - 1];
    if k :| 0 <= k < |rest| && rest[k].Emit? {
      assert steps[k + 1] == rest[k];
    }
  }

  lemma RecordSettled(decision: Decision, journal: Journal, readbacks: seq<Readback>, input: Input, env: Environment)
    requires !decision.effect.NoEffect? && Resolves(env.execute)
    ensures var steps := RecordPlan(decision, journal, readbacks, input, env).steps;
            Calls(steps) ==> SettledUnlessLost(steps, env.execute)
  {
    if Permits(input.permit, RequiredOperation(decision.effect)) {
      var s := RecordedState(decision, journal, readbacks, input);
      if InvariantsHold(s) {
        var saved, rest := Save(IntentSave, s), ExecutePlan(s, input, env).steps;
        ExecuteSettled(s, input, env);
        CallsLater(saved, rest);
        if Calls(rest) {
          SettledAfter([saved], rest, env.execute);
        }
      }
    }
  }

  lemma RetrySettled(prior: State, input: Input, env: Environment)
    requires prior.pendingEffect.Some? && Resolves(env.execute) && IdleBounded(prior.lifecycle)
    ensures var steps := [Save(RetrySave, RetryState(prior))] + ExecutePlan(RetryState(prior), input, env).steps;
            Calls(steps) ==> SettledUnlessLost(steps, env.execute)
  {
    var saved, rest := Save(RetrySave, RetryState(prior)), ExecutePlan(RetryState(prior), input, env).steps;
    ExecuteSettled(RetryState(prior), input, env);
    CallsLater(saved, rest);
    if Calls(rest) {
      SettledAfter([saved], rest, env.execute);
    }
  }

  lemma WaitCallsNothing(s: State, refusal: CapacityRefusal, kind: IntentKind, input: Input)
    requires s.pendingEffect.Some?
    ensures !Calls(WaitPlan(s, refusal, kind, input).steps)
  {
  }

  lemma ReconcileSettled(prior: State, input: Input, env: Environment)
    requires prior.pendingEffect.Some? && Resolves(env.execute) && IdleBounded(prior.lifecycle)
    ensures var steps := ReconcilePlan(prior, input, env).steps; Calls(steps) ==> SettledUnlessLost(steps, env.execute)
  {
    if env.reconcile.Reconciled? {
      var reply := env.reconcile;
      var withReadback := prior.(readbacks := WithReadback(prior.readbacks, reply.readback));
      var merged := withReadback.(lifecycle := Merged(input.journal));
      if reply.capacityRefusal.Some? {
        WaitCallsNothing(merged, reply.capacityRefusal.value, StartIntent, input);
        WaitCallsNothing(withReadback, reply.capacityRefusal.value, CreateIntent, input);
      }
      RecordSettled(RetireDecision(merged.lifecycle), merged.lifecycle.(outstandingIntent := None), merged.readbacks, input, env);
      RetrySettled(prior, input, env);
    }
  }

  // Over any journal and observation: a tick whose provider call resolves leaves the effect settled if and only if the
  // event is not lost, and otherwise leaves it pending and ambiguous.
  lemma TickSettledExactly(j: Option<State>, input: Input, env: Environment, dryRun: bool)
    requires Resolves(env.execute) && Calls(TickPlan(j, input, env, dryRun).steps)
    ensures SettledUnlessLost(TickPlan(j, input, env, dryRun).steps, env.execute)
  {
    var prior := if j.None? then None else Parse(j.value);
    if prior.Some? && prior.value.pendingEffect.Some? {
      ExecuteSettled(prior.value, input, env);
      ReconcileSettled(prior.value, input, env);
    } else {
      var decision := DecideLifecycle(input.(journal := BaseJournal(prior, input)));
      if !decision.effect.NoEffect? {
        RecordSettled(decision, BaseJournal(prior, input), Readbacks(prior), input, env);
      }
    }
  }

  // The same of the last act of a run.
  lemma RunSettledExactly(acts: seq<Act>)
    requires acts != [] && var act := acts[|acts| - 1]; act.Tick? && Resolves(act.env.execute)
    requires var w, act := After(acts[..|acts| - 1]), acts[|acts| - 1];
             var observed := Observe(JournalOf(w.log), w.ledger, act.look);
             && observed.Some?
             && var steps := TickPlan(JournalOf(w.log), observed.value.0, act.env, act.dryRun).steps;
                Calls(steps) && act.cut >= |steps|
    ensures SettledUnlessLost(After(acts).log, acts[|acts| - 1].env.execute)
  {
    var w, act := After(acts[..|acts| - 1]), acts[|acts| - 1];
    var input := Observe(JournalOf(w.log), w.ledger, act.look).value.0;
    TickSettledExactly(JournalOf(w.log), input, act.env, act.dryRun);
    SettledAfter(w.log, TickPlan(JournalOf(w.log), input, act.env, act.dryRun).steps, act.env.execute);
  }
}
