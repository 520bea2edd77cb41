/**
 The controller as an object whose only durable state is its journal. A tick overwrites the journal step by step
 around the provider call, and the process may die at any of the named boundaries. Every such tick performs
 exactly the surviving prefix of its plan.
 */
module ControllerJournal {
  import opened Contracts
  import opened Lifecycle
  import opened Controller
  import opened Journaling
  import opened Emissions
  import opened Accounting
  import opened Runs
  import opened Invariants
  import opened Authority

  datatype Boundary =
    | AfterIntentJournal | AfterIntentEvent | BeforeProviderIo | AfterEmittingJournal
    | AfterProviderIo | AfterReadbackJournal | AfterFinalEvent

  // Whether the process dies with the first of these steps just performed.
  predicate DiesAfter(steps: seq<Step>, death: Boundary)
    requires steps != []
  {
    var done := steps[0];
    match death
    case AfterIntentJournal => IsSave(done, IntentSave)
    case AfterIntentEvent => IsSave(done, IntentSave)
    case BeforeProviderIo => false
    case AfterEmittingJournal => IsSave(done, EmittingSave)
    case AfterProviderIo => done.Emit? && done.reply.ExecReturned?
    case AfterReadbackJournal => IsSave(done, ResultSave) || IsSave(done, ReconciledSave)
    case AfterFinalEvent => (IsSave(done, ResultSave) || IsSave(done, ReconciledSave)) && |steps| == 1
  }

  // The steps performed by a process that dies at this boundary, if it reaches it.
  function Survived(steps: seq<Step>, death: Option<Boundary>): (r: seq<Step>)
    ensures |r| <= |steps| && r == steps[..|r|]
  {
    if steps == [] || death.None? then steps
    else if death.value == BeforeProviderIo && IsSave(steps[0], EmittingSave) then []
    else if DiesAfter(steps, death.value) then [steps[0]]
    else [steps[0]] + Survived(steps[1..], death)
  }

  // What a run of a plan leaves: the surviving steps, and the plan's status when nothing died.
  ghost predicate Ran(plan: Plan, death: Option<Boundary>, before: seq<Step>, after: seq<Step>, status: TickStatus, alive: bool) {
    && after == before + Survived(plan.steps, death)
    && (alive ==> status == plan.status && Survived(plan.steps, death) == plan.steps)
  }

  lemma RanNothing(log: seq<Step>, death: Option<Boundary>, status: TickStatus)
    ensures Ran(Plan([], status), death, log, log, status, true)
  {
    assert log + [] == log;
  }

  // The last step: the process may die with it done, and then nothing is missing.
  lemma RanLast(log: seq<Step>, death: Option<Boundary>, step: Step, status: TickStatus, alive: bool)
    requires death == Some(BeforeProviderIo) ==> !IsSave(step, EmittingSave)
    ensures Ran(Plan([step], status), death, log, log + [step], status, alive)
  {
    assert [step][1..] == [];
    assert Survived([], death) == [];
  }

  lemma SurvivedHead(step: Step, rest: seq<Step>, death: Option<Boundary>)
    requires death.Some? ==> !DiesAfter([step] + rest, death.value)
    requires death == Some(BeforeProviderIo) ==> !IsSave(step, EmittingSave)
    ensures Survived([step] + rest, death) == [step] + Survived(rest, death)
  {
    assert ([step] + rest)[1..] == rest;
  }

  lemma RanFirst(log: seq<Step>, death: Option<Boundary>, step: Step, rest: Plan, after: seq<Step>, status: TickStatus, alive: bool)
    requires death.Some? ==> !DiesAfter([step] + rest.steps, death.value)
    requires death == Some(BeforeProviderIo) ==> !IsSave(step, EmittingSave)
    requires Ran(rest, death, log + [step], after, status, alive)
    ensures Ran(Then([step], rest), death, log, after, status, alive)
  {
    var tail := Survived(rest.steps, death);
    SurvivedHead(step, rest.steps, death);
    assert log + [step] + tail == log + ([step] + tail);
  }

  lemma DiedAt(log: seq<Step>, death: Option<Boundary>, step: Step, rest: Plan, status: TickStatus)
    requires death.Some? && death.value != BeforeProviderIo && DiesAfter([step] + rest.steps, death.value)
    ensures Ran(Then([step], rest), death, log, log + [step], status, false)
  {
    var steps := Then([step], rest).steps;
    assert steps == [step] + rest.steps && steps[0] == step;
  }

  lemma DiedBefore(log: seq<Step>, death: Option<Boundary>, step: Step, rest: Plan, status: TickStatus)
    requires death == Some(BeforeProviderIo) && IsSave(step, EmittingSave)
    ensures Ran(Then([step], rest), death, log, log, status, false)
  {
    assert log + [] == log;
  }

  lemma ThenTwo(a: Step, b: Step, plan: Plan)
    ensures Then([a, b], plan) == Then([a], Then([b], plan))
  {
    assert [a, b] + plan.steps == [a] + ([b] + plan.steps);
  }

  // Dying at a boundary is one of the cuts the run theorems range over.
  lemma DeathIsCut(w: World, look: Look, env: Environment, dryRun: bool, death: Option<Boundary>)
    requires Observe(JournalOf(w.log), w.ledger, look).Some?
    ensures var input := Observe(JournalOf(w.log), w.ledger, look).value.0;
            var survived := Survived(TickPlan(JournalOf(w.log), input, env, dryRun).steps, death);
            Perform(w, Act.Tick(look, env, dryRun, |survived|)).log == w.log + survived
  {
    var input := Observe(JournalOf(w.log), w.ledger, look).value.0;
    var steps := TickPlan(JournalOf(w.log), input, env, dryRun).steps;
    var survived := Survived(steps, death);
    assert steps[..|steps|] == steps;
    assert Cut(steps, |survived|) == survived;
  }

  predicate SamePending(p: PendingEffect, q: PendingEffect) {
    SameEffect(p, q) && p.stage == q.stage && p.operationId == q.operationId
  }

  // An abandoned effect is forgotten: the next tick decides as if it had never been journaled, and emits only what it
  // then journals itself.
  lemma AbandonedIsForgotten(s: State, input: Input, env: Environment, dryRun: bool)
    requires GoodState(s) && s.identity == input.identity
    ensures TickPlan(Some(AbandonedState(s)), input, env, dryRun) == FreshPlan(Some(AbandonedState(s)), input, env, dryRun)
    ensures var steps := TickPlan(Some(AbandonedState(s)), input, env, dryRun).steps;
            forall k :: 0 <= k < |steps| && steps[k].Emit? ==> IsSave(steps[0], IntentSave) && k == 2
  {
    var prior := AbandonedState(s);
    assert Parse(prior) == Some(prior);
    FreshEmitsLate(prior, input, env, dryRun);
  }

  lemma FreshEmitsLate(prior: State, input: Input, env: Environment, dryRun: bool)
    requires prior.pendingEffect.None?
    ensures var steps := FreshPlan(Some(prior), input, env, dryRun).steps;
            forall k :: 0 <= k < |steps| && steps[k].Emit? ==> IsSave(steps[0], IntentSave) && k == 2
  {
    var journal := Merged(input.journal);
    var decision := DecideLifecycle(input.(journal := journal));
    if !decision.effect.NoEffect? {
      RecordEmitsLate(decision, journal, prior.readbacks, input, env);
    }
  }

  lemma RecordEmitsLate(decision: Decision, journal: Journal, readbacks: seq<Readback>, input: Input, env: Environment)
    requires !decision.effect.NoEffect?
    ensures var steps := RecordPlan(decision, journal, readbacks, input, env).steps;
            forall k :: 0 <= k < |steps| && steps[k].Emit? ==> IsSave(steps[0], IntentSave) && k == 2
  {
    if Permits(input.permit, RequiredOperation(decision.effect)) {
      var s := RecordedState(decision, journal, readbacks, input);
      OutcomeSaves(EmittingState(s), env.execute, input);
    }
  }

  // While its authorization stays in question, a blocked effect stays blocked: a tick writes the same state again and
  // calls no provider, unless it retires the effect.
  lemma BlockedStaysBlocked(s: State, input: Input, env: Environment)
    requires GoodState(s) && s.pendingEffect.Some? && s.identity == input.identity
    requires AuthorizationProblem(s.pendingEffect.value, input).Some?
    ensures var plan := TickPlan(Some(BlockedState(s)), input, env, false);
            if ExpiredButRetirable(s.pendingEffect.value, input) then plan == AbandonPlan(BlockedState(s))
            else plan == Plan([Save(BlockedSave, BlockedState(s))], TickBlocked)
  {
    var blocked := BlockedState(s);
    assert Parse(blocked) == Some(blocked);
    assert BlockedState(blocked) == blocked;
    assert ExpiredButRetirable(blocked.pendingEffect.value, input) == ExpiredButRetirable(s.pendingEffect.value, input);
  }

  class JournalFile {
    // The file, absent before the first write.
    var content: Option<State>
    ghost var log: seq<Step>

    ghost predicate Valid()
      reads this
    {
      content == JournalOf(log)
    }

    constructor ()
      ensures Valid() && log == []
    {
      content, log := None, [];
    }

    // The file holds this state, but for its effect and intent, and reads back whenever the state did.
    ghost predicate Holds(s: State)
      reads this
    {
      && content.Some? && content.value.identity == s.identity && content.value.readbacks == s.readbacks
      && content.value.lifecycle.(outstandingIntent := s.lifecycle.outstandingIntent) == s.lifecycle
      && (GoodState(s) ==> GoodState(content.value))
    }

    // writeJournalAtomic: the old content is replaced as a whole.
    method Write(kind: SaveKind, s: State)
      requires Valid()
      modifies this
      ensures Valid() && content == Some(s) && log == old(log) + [Save(kind, s)]
    {
      content := Some(s);
      log := log + [Save(kind, s)];
      JournalOfSnoc(old(log), Save(kind, s));
    }

    // A write after which the tick ends without a boundary of its own.
    method WriteLast(kind: SaveKind, s: State, ghost death: Option<Boundary>, status: TickStatus)
      requires Valid() && kind != EmittingSave
      modifies this
      ensures Valid() && Ran(Single(kind, s, status), death, old(log), log, status, true)
    {
      Write(kind, s);
      RanLast(old(log), death, Save(kind, s), status, true);
    }

    // executeEffect, answered by the provider.
    method Call(effect: Effect, reply: ExecReply)
      requires Valid()
      modifies this
      ensures Valid() && content == old(content) && log == old(log) + [Emit(effect, reply)]
    {
      log := log + [Emit(effect, reply)];
      JournalOfSnoc(old(log), Emit(effect, reply));
    }

    // Afterwards the file holds neither an effect nor an intent, and all the rest as it was.
    method Abandon(s: State, ghost death: Option<Boundary>) returns (status: TickStatus)
      requires Valid()
      modifies this
      ensures Valid() && Ran(AbandonPlan(s), death, old(log), log, status, true)
      ensures Holds(s) && content.value.pendingEffect.None? && content.value.lifecycle.outstandingIntent.None?
    {
      status := TickAbandoned;
      WriteLast(AbandonedSave, s.(lifecycle := s.lifecycle.(outstandingIntent := None), pendingEffect := None), death, status);
    }

    // Afterwards the same effect, at the same stage and with the same authorization, is pending and marked blocked.
    method Block(s: State, ghost death: Option<Boundary>) returns (status: TickStatus)
      requires Valid() && s.pendingEffect.Some?
      modifies this
      ensures Valid() && Ran(BlockPlan(s), death, old(log), log, status, true)
      ensures Holds(s) && content.value.pendingEffect.Some? && SamePending(s.pendingEffect.value, content.value.pendingEffect.value)
      ensures content.value.pendingEffect.value.status == BlockedStatus
      ensures content.value.lifecycle.outstandingIntent.Some? <==> s.lifecycle.outstandingIntent.Some?
      ensures content.value.lifecycle.outstandingIntent.Some? ==>
                content.value.lifecycle.outstandingIntent.value.status == BlockedStatus
    {
      status := TickBlocked;
      WriteLast(BlockedSave, s.(lifecycle := MarkIntent(s.lifecycle, BlockedStatus),
                                pendingEffect := Some(s.pendingEffect.value.(status := BlockedStatus))), death, status);
    }

    method WaitForCapacity(s: State, refusal: CapacityRefusal, kind: IntentKind, input: Input, ghost death: Option<Boundary>)
      returns (status: TickStatus)
      requires Valid() && s.pendingEffect.Some?
      modifies this
      ensures Valid() && Ran(WaitPlan(s, refusal, kind, input), death, old(log), log, status, true)
    {
      var effect := s.pendingEffect.value.effect;
      var wait := NextCapacityWait(s.lifecycle.capacityWait, refusal, kind, input.nowMs, input.config.timing.pollIntervalMs);
      var startCount := s.lifecycle.startCount;
      status := TickThrew;
      if effect.StartVm? {
        if startCount != effect.generation {
          RanNothing(log, death, status);
          return;
        }
        startCount := effect.generation - 1;
      }
      var waiting := s.(lifecycle := s.lifecycle.(
                          startCount := startCount, state := if kind == CreateIntent then Absent else Stopped,
                          outstandingIntent := None, capacityWait := Some(wait), grantDeadlineMs := None, grantStartedAtMs := None),
                        pendingEffect := None);
      assert WaitingState(s, refusal, kind, input) == Some(waiting);
      if !InvariantsHold(waiting) {
        RanNothing(log, death, status);
        return;
      }
      status := TickWaiting;
      WriteLast(WaitingSave, waiting, death, status);
    }

    // The durable result of a call that returned, whose final event may be lost.
    method WriteResult(s: State, reply: ExecReply, input: Input, death: Option<Boundary>) returns (status: TickStatus, alive: bool)
      requires Valid() && s.pendingEffect.Some? && reply.ExecReturned? && InvariantsHold(ResultState(s, reply))
      modifies this
      ensures Valid() && Ran(OutcomePlan(s, reply, input), death, old(log), log, status, alive)
    {
      var result := ResultState(s, reply);
      ghost var step, lost := Save(ResultSave, result), Single(AmbiguousSave, AmbiguousState(s), TickThrew);
      Write(ResultSave, result);
      status := TickMutated;
      if !reply.eventLost {
        alive := death != Some(AfterReadbackJournal) && death != Some(AfterFinalEvent);
        RanLast(old(log), death, step, status, alive);
        assert OutcomePlan(s, reply, input) == Plan([step], TickMutated);
      } else if death == Some(AfterReadbackJournal) {
        alive := false;
        DiedAt(old(log), death, step, lost, status);
      } else {
        status, alive := TickThrew, true;
        WriteLast(AmbiguousSave, AmbiguousState(s), death, status);
        RanFirst(old(log), death, step, lost, log, status, alive);
      }
    }

    // What follows the provider call: the durable result, or the record of a failure.
    method Settle(s: State, reply: ExecReply, input: Input, death: Option<Boundary>) returns (status: TickStatus, alive: bool)
      requires Valid() && s.pendingEffect.Some?
      modifies this
      ensures Valid() && Ran(OutcomePlan(s, reply, input), death, old(log), log, status, alive)
    {
      var kind := KindOf(s.pendingEffect.value.effect);
      alive := true;
      if reply.ExecReturned? && InvariantsHold(ResultState(s, reply)) {
        status, alive := WriteResult(s, reply, input, death);
      } else if reply.ExecRefused? && kind.Some? {
        status := WaitForCapacity(s, reply.refusal, kind.value, input, death);
      } else {
        status := TickThrew;
        WriteLast(AmbiguousSave, AmbiguousState(s), death, status);
      }
    }

    // Marks the effect emitting, hands it to the provider and settles the answer.
    method EmitPending(s: State, input: Input, reply: ExecReply, death: Option<Boundary>) returns (status: TickStatus, alive: bool)
      requires Valid() && s.pendingEffect.Some?
      modifies this
      ensures Valid()
      ensures Ran(Then([Save(EmittingSave, EmittingState(s)), Emit(s.pendingEffect.value.effect, reply)],
                       OutcomePlan(EmittingState(s), reply, input)), death, old(log), log, status, alive)
    {
      var pending := s.pendingEffect.value;
      var emitting := s.(pendingEffect := Some(pending.(stage := EmittingStage)));
      ghost var saved, called := Save(EmittingSave, emitting), Emit(pending.effect, reply);
      ghost var outcome := OutcomePlan(emitting, reply, input);
      ThenTwo(saved, called, outcome);
      status, alive := TickMutated, false;
      if death == Some(BeforeProviderIo) {
        DiedBefore(log, death, saved, Then([called], outcome), status);
        return;
      }
      Write(EmittingSave, emitting);
      if death == Some(AfterEmittingJournal) {
        DiedAt(old(log), death, saved, Then([called], outcome), status);
        return;
      }
      ghost var written := log;
      Call(pending.effect, reply);
      if death == Some(AfterProviderIo) && reply.ExecReturned? {
        DiedAt(written, death, called, outcome, status);
      } else {
        status, alive := Settle(emitting, reply, input, death);
        RanFirst(written, death, called, outcome, log, status, alive);
      }
      RanFirst(old(log), death, saved, Then([called], outcome), log, status, alive);
    }

    method ExecutePending(s: State, input: Input, env: Environment, death: Option<Boundary>) returns (status: TickStatus, alive: bool)
      requires Valid() && s.pendingEffect.Some?
      modifies this
      ensures Valid() && Ran(ExecutePlan(s, input, env), death, old(log), log, status, alive)
    {
      alive := true;
      if AuthorizationProblem(s.pendingEffect.value, input).Some? {
        status := Block(s, death);
      } else if IsStale(s.pendingEffect.value, input) {
        status := Abandon(s, death);
      } else {
        status, alive := EmitPending(s, input, env.execute, death);
      }
    }

    // A journaled intent followed by its execution.
    method RecordIntent(s: State, input: Input, env: Environment, death: Option<Boundary>) returns (status: TickStatus, alive: bool)
      requires Valid() && s.pendingEffect.Some?
      modifies this
      ensures Valid() && Ran(Then([Save(IntentSave, s)], ExecutePlan(s, input, env)), death, old(log), log, status, alive)
    {
      ghost var plan := ExecutePlan(s, input, env);
      Write(IntentSave, s);
      if death == Some(AfterIntentJournal) || death == Some(AfterIntentEvent) {
        status, alive := TickMutated, false;
        DiedAt(old(log), death, Save(IntentSave, s), plan, status);
        return;
      }
      status, alive := ExecutePending(s, input, env, death);
      RanFirst(old(log), death, Save(IntentSave, s), plan, log, status, alive);
    }

    method RecordAndExecute(decision: Decision, journal: Journal, readbacks: seq<Readback>, input: Input, env: Environment,
                            death: Option<Boundary>) returns (status: TickStatus, alive: bool)
      requires Valid() && !decision.effect.NoEffect?
      modifies this
      ensures Valid() && Ran(RecordPlan(decision, journal, readbacks, input, env), death, old(log), log, status, alive)
    {
      if Permits(input.permit, RequiredOperation(decision.effect)) {
        var s := RecordedState(decision, journal, readbacks, input);
        if InvariantsHold(s) {
          status, alive := RecordIntent(s, input, env, death);
          return;
        }
      }
      status, alive := TickThrew, true;
      RanNothing(log, death, status);
    }

    // A retry that reconciliation asked for goes back to the intent stage before it is emitted again.
    method Retry(prior: State, input: Input, env: Environment, death: Option<Boundary>) returns (status: TickStatus, alive: bool)
      requires Valid() && prior.pendingEffect.Some?
      modifies this
      ensures Valid()
      ensures Ran(Then([Save(RetrySave, RetryState(prior))], ExecutePlan(RetryState(prior), input, env)),
                  death, old(log), log, status, alive)
    {
      var s := RetryState(prior);
      Write(RetrySave, s);
      status, alive := ExecutePending(s, input, env, death);
      RanFirst(old(log), death, Save(RetrySave, s), ExecutePlan(s, input, env), log, status, alive);
    }

    // Reconciliation of an effect that has been handed to the provider.
    method Reconcile(prior: State, input: Input, env: Environment, death: Option<Boundary>) returns (status: TickStatus, alive: bool)
      requires Valid() && prior.pendingEffect.Some?
      modifies this
      ensures Valid() && Ran(ReconcilePlan(prior, input, env), death, old(log), log, status, alive)
    {
      status, alive := TickThrew, true;
      if env.reconcile.ReconcileThrew? {
        RanNothing(log, death, status);
        return;
      }
      var pending, reply := prior.pendingEffect.value, env.reconcile;
      var readbacks := WithReadback(prior.readbacks, reply.readback);
      if reply.capacityRefusal.Some? && reply.retireStoppedStart && pending.effect.StartVm? && SettledOwned(input, VmStopped) {
        if !RegressionFree(prior.lifecycle, input.journal) {
          RanNothing(log, death, status);
          return;
        }
        status := WaitForCapacity(prior.(lifecycle := Merged(input.journal), readbacks := readbacks),
                                  reply.capacityRefusal.value, StartIntent, input, death);
      } else if reply.retireStoppedStart && CanRetireStoppedStart(pending, input) {
        if !RegressionFree(prior.lifecycle, input.journal) {
          RanNothing(log, death, status);
          return;
        }
        var merged := Merged(input.journal);
        status, alive := RecordAndExecute(RetireDecision(merged), merged.(outstandingIntent := None), readbacks, input, env, death);
      } else if reply.capacityRefusal.Some? && pending.effect.CreateVm? && input.provider.complete && ProvenAbsent(input.provider) {
        status := WaitForCapacity(prior.(readbacks := readbacks), reply.capacityRefusal.value, CreateIntent, input, death);
      } else if !reply.resolved && reply.retry {
        status, alive := Retry(prior, input, env, death);
      } else {
        status, alive := FinishReconcile(prior, readbacks, reply.resolved, reply.readback, death);
      }
    }

    // The answer is either still unresolved or settles the effect.
    method FinishReconcile(prior: State, readbacks: seq<Readback>, resolved: bool, readback: Readback, death: Option<Boundary>)
      returns (status: TickStatus, alive: bool)
      requires Valid() && prior.pendingEffect.Some?
      modifies this
      ensures Valid()
      ensures Ran(if resolved then Single(ReconciledSave, ReconciledState(prior, readback), TickReconciled)
                  else if readback.None? then Plan([], TickPending)
                  else Single(ReadbackSave, prior.(readbacks := readbacks), TickPending), death, old(log), log, status, alive)
    {
      status, alive := TickPending, true;
      if resolved {
        status, alive := TickReconciled, death != Some(AfterReadbackJournal) && death != Some(AfterFinalEvent);
        Write(ReconciledSave, ReconciledState(prior, readback));
        RanLast(old(log), death, Save(ReconciledSave, ReconciledState(prior, readback)), status, alive);
      } else if readback.Some? {
        WriteLast(ReadbackSave, prior.(readbacks := readbacks), death, status);
      } else {
        RanNothing(log, death, status);
      }
    }

    method Decide(prior: Option<State>, input: Input, env: Environment, dryRun: bool, death: Option<Boundary>)
      returns (status: TickStatus, alive: bool)
      requires Valid() && (prior.Some? ==> prior.value.pendingEffect.None?)
      modifies this
      ensures Valid() && Ran(FreshPlan(prior, input, env, dryRun), death, old(log), log, status, alive)
    {
      status, alive := TickThrew, true;
      if prior.Some? && !RegressionFree(prior.value.lifecycle, input.journal) {
        RanNothing(log, death, status);
        return;
      }
      var journal := if prior.None? then input.journal else Merged(input.journal);
      var readbacks := if prior.None? then [] else prior.value.readbacks;
      var decision := DecideLifecycle(input.(journal := journal));
      if decision.effect.NoEffect? {
        var observed := State(input.identity, journal, None, readbacks);
        if Parse(observed).None? {
          RanNothing(log, death, status);
          return;
        }
        status := if decision.state == Blocked then TickBlocked else if decision.reason == CapacityHeld then TickWaiting else TickIdle;
        WriteLast(ObservedSave, observed, death, status);
      } else if dryRun {
        status := TickDryRun;
        RanNothing(log, death, status);
      } else {
        status, alive := RecordAndExecute(decision, journal, readbacks, input, env, death);
      }
    }

    // One tick. Dying at a boundary leaves exactly the steps of the plan that came before it.
    method Tick(input: Input, env: Environment, dryRun: bool, death: Option<Boundary>) returns (status: TickStatus, alive: bool)
      requires Valid()
      modifies this
      ensures Valid() && Ran(TickPlan(old(content), input, env, dryRun), death, old(log), log, status, alive)
    {
      status, alive := TickThrew, true;
      var prior := if content.None? then None else Parse(content.value);
      if (content.Some? && prior.None?) || (prior.Some? && prior.value.identity != input.identity) {
        RanNothing(log, death, status);
        return;
      }
      if prior.None? || prior.value.pendingEffect.None? {
        status, alive := Decide(prior, input, env, dryRun, death);
        return;
      }
      if dryRun {
        status := TickDryRun;
        RanNothing(log, death, status);
        return;
      }
      status, alive := Resume(prior.value, input, env, death);
    }

    // A tick that finds an effect pending.
    method Resume(prior: State, input: Input, env: Environment, death: Option<Boundary>) returns (status: TickStatus, alive: bool)
      requires Valid() && prior.pendingEffect.Some?
      modifies this
      ensures Valid() && Ran(PendingPlan(prior, input, env), death, old(log), log, status, alive)
    {
      var pending := prior.pendingEffect.value;
      alive := true;
      if AuthorizationProblem(pending, input).Some? {
        if ExpiredButRetirable(pending, input) {
          status := Abandon(prior, death);
        } else {
          status := Block(prior, death);
        }
      } else if IsStale(pending, input) {
        status := Abandon(prior, death);
      } else if pending.stage == IntentStage {
        status, alive := ExecutePending(prior, input, env, death);
      } else {
        status, alive := Reconcile(prior, input, env, death);
      }
    }
  }
}
