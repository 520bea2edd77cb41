/**
 What a tick may do to the durable journal, one step at a time, and the invariant of every journal state.
 `Legal` is a small transition relation; `TickIsLegal` shows that the plan of every tick, cut anywhere,
 is a path of it, so the run-long properties need one case per kind of step.
 */
module Journaling {
  import opened Contracts
  import opened Lifecycle
  import opened Controller
  import opened Accounting
  import opened Paths

  // The journal a restarted controller reads back: the last durable write.
  function JournalOf(log: seq<Step>): Option<State> {
    if log == [] then None
    else
      match log[|log| - 1]
      case Save(_, s) => Some(s)
      case Emit(_, _) => JournalOf(log[..|log| - 1])
  }

  lemma JournalOfSnoc(log: seq<Step>, step: Step)
    ensures JournalOf(log + [step]) == (if step.Save? then Some(step.state) else JournalOf(log))
  {
    assert (log + [step])[..|log|] == log;
  }

  // ---- what the environment guarantees about one tick ----

  // Parsed records, guest grants numbered from 1, and no guest grant read from a VM that is not up.
  predicate Honest(input: Input) {
    && ParsedConfig(input.config) && ParsesIdentity(input.identity)
    && (input.permit.Some? ==> ParsedPermit(input.permit.value))
    && (input.guest.grant.Some? ==> input.guest.grant.value.generation >= 1)
    && (input.provider.vmStatus in {VmAbsent, VmStopped} ==> input.guest.grant.None?)
  }

  // The wait detail is readable again unless the only quota name is empty.
  predicate Readable(refusal: CapacityRefusal) { refusal.quotas != [""] }

  predicate ReadableRefusals(env: Environment) {
    && (env.execute.ExecRefused? ==> Readable(env.execute.refusal))
    && (env.reconcile.Reconciled? && env.reconcile.capacityRefusal.Some? ==> Readable(env.reconcile.capacityRefusal.value))
  }

  lemma DetailEmptyExactly(previous: Option<CapacityWait>, refusal: CapacityRefusal, kind: IntentKind, nowMs: int, pollIntervalMs: int)
    ensures NextCapacityWait(previous, refusal, kind, nowMs, pollIntervalMs).detail == "" <==> !Readable(refusal)
  {
    if |refusal.quotas| == 1 {
      assert refusal.quotas == [refusal.quotas[0]];
    }
  }

  // The observed journal is the saved one with its counters grown and its idle evidence advanced.
  predicate SeenFrom(saved: Journal, input: Input) {
    var seen := input.journal;
    && seen == saved.(cumulativeRuntimeMs := seen.cumulativeRuntimeMs, cumulativeCostUsd := seen.cumulativeCostUsd,
                      idleObservations := AdvanceIdle(saved, input.queue, input.guest, input.nowMs))
    && seen.cumulativeRuntimeMs >= saved.cumulativeRuntimeMs && seen.cumulativeCostUsd >= saved.cumulativeCostUsd
    && (saved.idleObservations != [] ==> saved.idleObservations[|saved.idleObservations| - 1].observedAtMs < input.nowMs)
  }

  predicate Fresh(journal: Journal) {
    && journal.startCount == 0 && journal.cumulativeRuntimeMs >= 0 && journal.cumulativeCostUsd >= 0.0
    && journal.outstandingIntent.None? && journal.idleObservations == []
    && journal.grantDeadlineMs.None? && journal.grantStartedAtMs.None? && journal.capacityWait.None?
    && !GuestUp(journal.state)
  }

  predicate SeenAfter(prior: Option<State>, input: Input) {
    if prior.Some? then SeenFrom(prior.value.lifecycle, input) else Fresh(input.journal)
  }

  // ---- the transition relation ----

  function LastEmitReply(log: seq<Step>): Option<ExecReply> {
    if log != [] && log[|log| - 1].Emit? then Some(log[|log| - 1].reply) else None
  }

  function BaseJournal(prior: Option<State>, input: Input): Journal {
    if prior.None? then input.journal else Merged(input.journal)
  }

  function Readbacks(prior: Option<State>): seq<Readback> {
    if prior.None? then [] else prior.value.readbacks
  }

  predicate HasPending(prior: Option<State>) { prior.Some? && prior.value.pendingEffect.Some? }

  predicate LegalIntent(prior: Option<State>, s: State, input: Input) {
    && SeenAfter(prior, input) && InvariantsHold(s) && input.permit.Some?
    && (if !HasPending(prior) then
          var decision := DecideLifecycle(input.(journal := BaseJournal(prior, input)));
          && !decision.effect.NoEffect? && Permits(input.permit, RequiredOperation(decision.effect))
          && s == RecordedState(decision, BaseJournal(prior, input), Readbacks(prior), input)
        else
          var merged := Merged(input.journal);
          && prior.value.pendingEffect.value.stage == EmittingStage && |s.readbacks| <= 100
          && CanRetireStoppedStart(prior.value.pendingEffect.value, input)
          && s == RecordedState(RetireDecision(merged), merged.(outstandingIntent := None), s.readbacks, input))
  }

  predicate LegalWaiting(first: bool, log: seq<Step>, prior: State, s: State, input: Input, env: Environment)
    requires prior.pendingEffect.Some?
  {
    var effect := prior.pendingEffect.value.effect;
    var emitted := LastEmitReply(log);
    && InvariantsHold(s) && KindOf(effect).Some? && |s.readbacks| <= 100
    && (|| (emitted.Some? && emitted.value.ExecRefused? && emitted.value == env.execute
            && Some(s) == WaitingState(prior, emitted.value.refusal, KindOf(effect).value, input))
        || (first && LegalRefusalReadback(prior, s, input, env)))
  }

  // The refusal is learned from a readback of the pending operation.
  predicate LegalRefusalReadback(prior: State, s: State, input: Input, env: Environment)
    requires prior.pendingEffect.Some?
  {
    && prior.pendingEffect.value.stage == EmittingStage
    && env.reconcile.Reconciled? && env.reconcile.capacityRefusal.Some?
    && var refusal := env.reconcile.capacityRefusal.value;
       if prior.pendingEffect.value.effect.StartVm? then
         && SettledOwned(input, VmStopped) && SeenFrom(prior.lifecycle, input)
         && Some(s) == WaitingState(prior.(lifecycle := Merged(input.journal), readbacks := s.readbacks), refusal, StartIntent, input)
       else
         && input.provider.complete && ProvenAbsent(input.provider)
         && Some(s) == WaitingState(prior.(readbacks := s.readbacks), refusal, CreateIntent, input)
  }

  // The emitting state whose durable result was followed by a failure of the same provider call.
  predicate LateFailure(log: seq<Step>, s: State) {
    && |log| >= 3 && log[|log| - 1].Save? && log[|log| - 1].kind == ResultSave && log[|log| - 2].Emit?
    && log[|log| - 3].Save? && log[|log| - 3].kind == EmittingSave
    && var emitting := log[|log| - 3].state;
       emitting.pendingEffect.Some? && s == AmbiguousState(emitting)
       && log[|log| - 2].reply.ExecReturned? && log[|log| - 1].state == ResultState(emitting, log[|log| - 2].reply)
  }

  predicate LegalSave(first: bool, log: seq<Step>, kind: SaveKind, s: State, input: Input, env: Environment) {
    var prior := JournalOf(log);
    match kind
    case ObservedSave =>
      && first && !HasPending(prior) && SeenAfter(prior, input) && Parse(s).Some?
      && DecideLifecycle(input.(journal := s.lifecycle)).effect.NoEffect?
      && s == State(input.identity, BaseJournal(prior, input), None, Readbacks(prior))
    case IntentSave => first && LegalIntent(prior, s, input)
    case AmbiguousSave =>
      || LateFailure(log, s)
      || (HasPending(prior) && LastEmitReply(log).Some? && s == AmbiguousState(prior.value))
    case DirectStopSave =>
      prior.Some? && GuestUp(prior.value.lifecycle.state) && s == DirectlyStopped(prior.value)
    case _ => HasPending(prior) && LegalMove(first, log, prior.value, kind, s, input, env)
  }

  // The remaining writes all replace a pending effect.
  predicate LegalMove(first: bool, log: seq<Step>, prior: State, kind: SaveKind, s: State, input: Input, env: Environment)
    requires prior.pendingEffect.Some?
  {
    var pending := prior.pendingEffect.value;
    var emitted := LastEmitReply(log);
    match kind
    case EmittingSave =>
      && pending.stage == IntentStage && s == EmittingState(prior)
      && AuthorizationProblem(pending, input).None? && !IsStale(pending, input)
    case ResultSave =>
      emitted.Some? && emitted.value.ExecReturned? && s == ResultState(prior, emitted.value) && InvariantsHold(s)
    case WaitingSave => LegalWaiting(first, log, prior, s, input, env)
    case BlockedSave => AuthorizationProblem(pending, input).Some? && s == BlockedState(prior)
    case AbandonedSave => IsStale(pending, input) && s == AbandonedState(prior)
    case RetrySave =>
      && first && pending.stage == EmittingStage && s == RetryState(prior)
      && env.reconcile.Reconciled? && env.reconcile.retry && !env.reconcile.resolved
    case ReadbackSave => first && pending.stage == EmittingStage && s == prior.(readbacks := s.readbacks) && |s.readbacks| <= 100
    case ReconciledSave =>
      && first && pending.stage == EmittingStage && env.reconcile.Reconciled? && env.reconcile.resolved
      && s == ReconciledState(prior, env.reconcile.readback)
    case _ => false
  }

  // A stop the controller emits outside the tick (emitControllerStop) is noted in the journal.
  function DirectlyStopped(s: State): State {
    s.(lifecycle := s.lifecycle.(state := Stopping))
  }

  predicate Legal(first: bool, log: seq<Step>, step: Step, input: Input, env: Environment) {
    match step
    case Save(kind, s) => LegalSave(first, log, kind, s, input, env)
    case Emit(effect, reply) =>
      && log != [] && log[|log| - 1].Save? && log[|log| - 1].kind == EmittingSave
      && log[|log| - 1].state.pendingEffect.Some? && reply == env.execute
      && var pending := log[|log| - 1].state.pendingEffect.value;
         && effect == pending.effect && AuthorizationProblem(pending, input).None? && !IsStale(pending, input)
  }

  function Rule(input: Input, env: Environment): (bool, seq<Step>, Step) -> bool {
    (first: bool, log: seq<Step>, step: Step) => Legal(first, log, step, input, env)
  }

  predicate LegalPath(first: bool, log: seq<Step>, steps: seq<Step>, input: Input, env: Environment) {
    Path(Rule(input, env), first, log, steps)
  }

  lemma OneStep(first: bool, log: seq<Step>, step: Step, input: Input, env: Environment)
    requires Legal(first, log, step, input, env)
    ensures LegalPath(first, log, [step], input, env)
  {
    PathOne(Rule(input, env), first, log, step);
  }

  // ---- every tick is a legal path ----

  lemma WaitLegal(first: bool, log: seq<Step>, s: State, refusal: CapacityRefusal, kind: IntentKind, input: Input, env: Environment)
    requires s.pendingEffect.Some?
    requires var w := WaitingState(s, refusal, kind, input);
             w.Some? && InvariantsHold(w.value) ==> Legal(first, log, Save(WaitingSave, w.value), input, env)
    ensures LegalPath(first, log, WaitPlan(s, refusal, kind, input).steps, input, env)
  {
    var waiting := WaitingState(s, refusal, kind, input);
    if waiting.Some? && InvariantsHold(waiting.value) {
      OneStep(first, log, Save(WaitingSave, waiting.value), input, env);
    }
  }

  lemma ResultLegal(log: seq<Step>, s: State, input: Input, env: Environment)
    requires s.pendingEffect.Some? && env.execute.ExecReturned? && InvariantsHold(ResultState(s, env.execute))
    requires log != [] && log[|log| - 1] == Emit(s.pendingEffect.value.effect, env.execute) && JournalOf(log) == Some(s)
    ensures LegalPath(false, log, [Save(ResultSave, ResultState(s, env.execute))], input, env)
  {
    OneStep(false, log, Save(ResultSave, ResultState(s, env.execute)), input, env);
  }

  lemma AmbiguousLegal(log: seq<Step>, s: State, input: Input, env: Environment)
    requires s.pendingEffect.Some? && log != [] && log[|log| - 1].Emit? && JournalOf(log) == Some(s)
    ensures LegalPath(false, log, [Save(AmbiguousSave, AmbiguousState(s))], input, env)
  {
    OneStep(false, log, Save(AmbiguousSave, AmbiguousState(s)), input, env);
  }

  lemma LateFailureLegal(log: seq<Step>, s: State, input: Input, env: Environment)
    requires s.pendingEffect.Some? && env.execute.ExecReturned?
    requires |log| >= 2 && log[|log| - 1] == Emit(s.pendingEffect.value.effect, env.execute)
    requires log[|log| - 2] == Save(EmittingSave, s)
    ensures LegalPath(false, log + [Save(ResultSave, ResultState(s, env.execute))], [Save(AmbiguousSave, AmbiguousState(s))], input, env)
  {
    var longer := log + [Save(ResultSave, ResultState(s, env.execute))];
    assert longer[|longer| - 2] == log[|log| - 1] && longer[|longer| - 3] == log[|log| - 2];
    assert LateFailure(longer, AmbiguousState(s));
    OneStep(false, longer, Save(AmbiguousSave, AmbiguousState(s)), input, env);
  }

  lemma ReturnLegal(log: seq<Step>, s: State, input: Input, env: Environment)
    requires s.pendingEffect.Some? && env.execute.ExecReturned? && InvariantsHold(ResultState(s, env.execute))
    requires |log| >= 2 && log[|log| - 1] == Emit(s.pendingEffect.value.effect, env.execute)
    requires log[|log| - 2] == Save(EmittingSave, s) && JournalOf(log) == Some(s)
    ensures LegalPath(false, log, OutcomePlan(s, env.execute, input).steps, input, env)
  {
    var result, ambiguous := Save(ResultSave, ResultState(s, env.execute)), Save(AmbiguousSave, AmbiguousState(s));
    ResultLegal(log, s, input, env);
    if env.execute.eventLost {
      LateFailureLegal(log, s, input, env);
      PathThen(Rule(input, env), false, log, [result], [ambiguous]);
    }
  }

  lemma RefusalLegal(log: seq<Step>, s: State, kind: IntentKind, input: Input, env: Environment)
    requires s.pendingEffect.Some? && env.execute.ExecRefused? && |s.readbacks| <= 100
    requires log != [] && log[|log| - 1] == Emit(s.pendingEffect.value.effect, env.execute) && JournalOf(log) == Some(s)
    requires KindOf(s.pendingEffect.value.effect) == Some(kind)
    ensures LegalPath(false, log, WaitPlan(s, env.execute.refusal, kind, input).steps, input, env)
  {
    var w := WaitingState(s, env.execute.refusal, kind, input);
    if w.Some? && InvariantsHold(w.value) {
      assert w.value.readbacks == s.readbacks;
      assert LegalWaiting(false, log, s, w.value, input, env);
    }
    WaitLegal(false, log, s, env.execute.refusal, kind, input, env);
  }

  lemma EmittedJournal(log: seq<Step>, s: State)
    requires |log| >= 2 && log[|log| - 1].Emit? && log[|log| - 2] == Save(EmittingSave, s)
    ensures JournalOf(log) == Some(s)
  {
    var before := log[..|log| - 1];
    assert before[|before| - 1] == log[|log| - 2];
  }

  lemma OutcomeLegal(log: seq<Step>, s: State, input: Input, env: Environment)
    requires s.pendingEffect.Some? && |s.readbacks| <= 100
    requires |log| >= 2 && log[|log| - 1] == Emit(s.pendingEffect.value.effect, env.execute)
    requires log[|log| - 2] == Save(EmittingSave, s)
    ensures LegalPath(false, log, OutcomePlan(s, env.execute, input).steps, input, env)
  {
    EmittedJournal(log, s);
    var kind := KindOf(s.pendingEffect.value.effect);
    if env.execute.ExecRefused? && kind.Some? {
      RefusalLegal(log, s, kind.value, input, env);
    } else if env.execute.ExecReturned? && InvariantsHold(ResultState(s, env.execute)) {
      ReturnLegal(log, s, input, env);
    } else {
      AmbiguousLegal(log, s, input, env);
    }
  }

  lemma ExecuteLegal(log: seq<Step>, s: State, input: Input, env: Environment)
    requires JournalOf(log) == Some(s) && s.pendingEffect.Some? && s.pendingEffect.value.stage == IntentStage
    requires |s.readbacks| <= 100
    ensures LegalPath(false, log, ExecutePlan(s, input, env).steps, input, env)
  {
    var pending := s.pendingEffect.value;
    if AuthorizationProblem(pending, input).Some? {
      OneStep(false, log, Save(BlockedSave, BlockedState(s)), input, env);
    } else if IsStale(pending, input) {
      OneStep(false, log, Save(AbandonedSave, AbandonedState(s)), input, env);
    } else {
      var emitting := EmittingState(s);
      var saved, emit := Save(EmittingSave, emitting), Emit(pending.effect, env.execute);
      OneStep(false, log, saved, input, env);
      JournalOfSnoc(log, saved);
      assert (log + [saved])[|log|] == saved;
      OneStep(false, log + [saved], emit, input, env);
      PathThen(Rule(input, env), false, log, [saved], [emit]);
      assert [saved] + [emit] == [saved, emit];
      var longer := log + [saved, emit];
      assert longer == log + [saved] + [emit];
      assert longer[|longer| - 1] == emit && longer[|longer| - 2] == saved;
      OutcomeLegal(longer, emitting, input, env);
      PathThen(Rule(input, env), false, log, [saved, emit], OutcomePlan(emitting, env.execute, input).steps);
    }
  }

  lemma LaterPath(log: seq<Step>, steps: seq<Step>, input: Input, env: Environment)
    requires LegalPath(false, log, steps, input, env)
    ensures LegalPath(true, log, steps, input, env)
  {
  }

  lemma RecordLegal(log: seq<Step>, decision: Decision, journal: Journal, readbacks: seq<Readback>, input: Input, env: Environment)
    requires !decision.effect.NoEffect? && |readbacks| <= 100
    requires Permits(input.permit, RequiredOperation(decision.effect)) ==>
               var s := RecordedState(decision, journal, readbacks, input);
               InvariantsHold(s) ==> LegalIntent(JournalOf(log), s, input)
    ensures LegalPath(true, log, RecordPlan(decision, journal, readbacks, input, env).steps, input, env)
  {
    if Permits(input.permit, RequiredOperation(decision.effect)) {
      var s := RecordedState(decision, journal, readbacks, input);
      if InvariantsHold(s) {
        var saved := Save(IntentSave, s);
        OneStep(true, log, saved, input, env);
        JournalOfSnoc(log, saved);
        ExecuteLegal(log + [saved], s, input, env);
        PathThen(Rule(input, env), true, log, [saved], ExecutePlan(s, input, env).steps);
      }
    }
  }

  lemma FreshLegal(log: seq<Step>, input: Input, env: Environment, dryRun: bool)
    requires var prior := JournalOf(log);
             !HasPending(prior) && SeenAfter(prior, input) && |Readbacks(prior)| <= 100
    ensures LegalPath(true, log, FreshPlan(JournalOf(log), input, env, dryRun).steps, input, env)
  {
    var prior := JournalOf(log);
    var journal := BaseJournal(prior, input);
    var decision := DecideLifecycle(input.(journal := journal));
    if decision.effect.NoEffect? {
      var s := State(input.identity, journal, None, Readbacks(prior));
      if Parse(s).Some? {
        OneStep(true, log, Save(ObservedSave, s), input, env);
      }
    } else {
      RecordLegal(log, decision, journal, Readbacks(prior), input, env);
    }
  }

  // The wait a readback of the pending operation leads to, from the state it was merged into.
  lemma RefusalReadbackLegal(log: seq<Step>, prior: State, base: State, kind: IntentKind, input: Input, env: Environment)
    requires JournalOf(log) == Some(prior) && prior.pendingEffect.Some? && prior.pendingEffect.value.stage == EmittingStage
    requires env.reconcile.Reconciled? && env.reconcile.capacityRefusal.Some? && |base.readbacks| <= 100
    requires KindOf(prior.pendingEffect.value.effect) == Some(kind)
    requires if kind == StartIntent then
               && SettledOwned(input, VmStopped) && SeenFrom(prior.lifecycle, input)
               && base == prior.(lifecycle := Merged(input.journal), readbacks := base.readbacks)
             else
               && input.provider.complete && ProvenAbsent(input.provider) && base == prior.(readbacks := base.readbacks)
    ensures LegalPath(true, log, WaitPlan(base, env.reconcile.capacityRefusal.value, kind, input).steps, input, env)
  {
    WaitLegal(true, log, base, env.reconcile.capacityRefusal.value, kind, input, env);
  }

  lemma RetryLegal(log: seq<Step>, prior: State, input: Input, env: Environment)
    requires JournalOf(log) == Some(prior) && prior.pendingEffect.Some? && prior.pendingEffect.value.stage == EmittingStage
    requires env.reconcile.Reconciled? && env.reconcile.retry && !env.reconcile.resolved && |prior.readbacks| <= 100
    ensures LegalPath(true, log, [Save(RetrySave, RetryState(prior))] + ExecutePlan(RetryState(prior), input, env).steps, input, env)
  {
    var saved := Save(RetrySave, RetryState(prior));
    OneStep(true, log, saved, input, env);
    JournalOfSnoc(log, saved);
    ExecuteLegal(log + [saved], RetryState(prior), input, env);
    PathThen(Rule(input, env), true, log, [saved], ExecutePlan(RetryState(prior), input, env).steps);
  }

  lemma ReconcileLegal(log: seq<Step>, prior: State, input: Input, env: Environment)
    requires JournalOf(log) == Some(prior) && prior.pendingEffect.Some?
    requires prior.pendingEffect.value.stage == EmittingStage
    requires SeenFrom(prior.lifecycle, input) && |prior.readbacks| <= 100
    ensures LegalPath(true, log, ReconcilePlan(prior, input, env).steps, input, env)
  {
    var pending := prior.pendingEffect.value;
    if env.reconcile.Reconciled? {
      var reply := env.reconcile;
      var withReadback := prior.(readbacks := WithReadback(prior.readbacks, reply.readback));
      var merged := withReadback.(lifecycle := Merged(input.journal));
      if reply.capacityRefusal.Some? && reply.retireStoppedStart && pending.effect.StartVm? && SettledOwned(input, VmStopped) {
        RefusalReadbackLegal(log, prior, merged, StartIntent, input, env);
      } else if reply.retireStoppedStart && CanRetireStoppedStart(pending, input) {
        RecordLegal(log, RetireDecision(merged.lifecycle), merged.lifecycle.(outstandingIntent := None), merged.readbacks, input, env);
      } else if reply.capacityRefusal.Some? && pending.effect.CreateVm? && input.provider.complete && ProvenAbsent(input.provider) {
        RefusalReadbackLegal(log, prior, withReadback, CreateIntent, input, env);
      } else if !reply.resolved && reply.retry {
        RetryLegal(log, prior, input, env);
      } else if !reply.resolved {
        if reply.readback.Some? {
          OneStep(true, log, Save(ReadbackSave, withReadback), input, env);
        }
      } else {
        OneStep(true, log, Save(ReconciledSave, ReconciledState(prior, reply.readback)), input, env);
      }
    }
  }

  // Every prefix of every tick over a readable journal is a path of the transition relation.
  lemma TickIsLegal(log: seq<Step>, input: Input, env: Environment, dryRun: bool, cut: nat)
    requires var j := JournalOf(log);
             && SeenAfter(j, input)
             && (j.Some? ==> Parse(j.value) == Some(j.value))
             && cut <= |TickPlan(j, input, env, dryRun).steps|
    ensures LegalPath(true, log, TickPlan(JournalOf(log), input, env, dryRun).steps[..cut], input, env)
  {
    var j := JournalOf(log);
    var plan := TickPlan(j, input, env, dryRun);
    if j.Some? && j.value.identity != input.identity {
    } else if HasPending(j) {
      if !dryRun {
        PendingLegal(log, j.value, input, env);
      }
    } else {
      FreshLegal(log, input, env, dryRun);
    }
    PathPrefix(Rule(input, env), true, log, plan.steps, cut);
  }

  lemma PendingLegal(log: seq<Step>, prior: State, input: Input, env: Environment)
    requires JournalOf(log) == Some(prior) && prior.pendingEffect.Some?
    requires SeenFrom(prior.lifecycle, input) && |prior.readbacks| <= 100
    ensures LegalPath(true, log, PendingPlan(prior, input, env).steps, input, env)
  {
    var pending := prior.pendingEffect.value;
    var problem := AuthorizationProblem(pending, input).Some?;
    if (problem && ExpiredButRetirable(pending, input)) || (!problem && IsStale(pending, input)) {
      OneStep(true, log, Save(AbandonedSave, AbandonedState(prior)), input, env);
    } else if problem {
      OneStep(true, log, Save(BlockedSave, BlockedState(prior)), input, env);
    } else if pending.stage == IntentStage {
      ExecuteLegal(log, prior, input, env);
      LaterPath(log, ExecutePlan(prior, input, env).steps, input, env);
    } else {
      ReconcileLegal(log, prior, input, env);
    }
  }
}
