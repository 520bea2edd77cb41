/**
 The write-ahead journal of the runner controller as pure record builders, and the plan of one tick
 as the list of durable steps it performs (packages/runner/src/controller.ts).
 A crash is a tick that performed only a prefix of its plan.
 */
module Controller {
  import opened Contracts
  import opened Lifecycle

  datatype Stage = IntentStage | EmittingStage

  datatype Authorization = Authorization(
    identity: Identity, permitId: string, permitExpiresAtMs: int, operation: Operation,
    recoveryAllowed: bool, effectDeadlineMs: Option<int>)

  // The effect's id: controller, time and effect kind.
  datatype EffectId = EffectId(controllerId: string, nowMs: int, effect: Effect)

  datatype PendingEffect = PendingEffect(
    id: EffectId, effect: Effect, createdAtMs: int, status: EffectStatus, stage: Stage,
    authorization: Authorization, operationId: Option<string>)

  type Readback = Option<string>

  datatype State = State(
    identity: Identity, lifecycle: Journal, pendingEffect: Option<PendingEffect>, readbacks: seq<Readback>)

  // What the provider side answers: executeEffect and reconcileEffect.
  datatype ExecReply =
    | ExecThrew
    | ExecRefused(refusal: CapacityRefusal)
    | ExecReturned(operationId: Option<string>, resolved: bool, readback: Readback, eventLost: bool)

  datatype ReconcileReply =
    | ReconcileThrew
    | Reconciled(resolved: bool, retry: bool, retireStoppedStart: bool, readback: Readback,
                 capacityRefusal: Option<CapacityRefusal>)

  datatype Environment = Environment(reconcile: ReconcileReply, execute: ExecReply)

  // The kind of a journal write, named after the event that accompanies it.
  datatype SaveKind =
    | ObservedSave | IntentSave | EmittingSave | ResultSave | AmbiguousSave | WaitingSave
    | BlockedSave | AbandonedSave | RetrySave | ReadbackSave | ReconciledSave | DirectStopSave

  datatype Step = Save(kind: SaveKind, state: State) | Emit(effect: Effect, reply: ExecReply)

  datatype TickStatus =
    | TickBlocked | TickIdle | TickDryRun | TickMutated | TickReconciled | TickPending
    | TickAbandoned | TickWaiting | TickThrew

  datatype Plan = Plan(steps: seq<Step>, status: TickStatus)

  // ---- record builders ----

  function Latest<T>(s: seq<T>): seq<T> {
    if |s| > 100 then s[|s| - 100..] else s
  }

  predicate RegressionFree(saved: Journal, observed: Journal) {
    && observed.startCount >= saved.startCount
    && observed.cumulativeRuntimeMs >= saved.cumulativeRuntimeMs
    && observed.cumulativeCostUsd >= saved.cumulativeCostUsd
    && saved.idleObservations <= observed.idleObservations
    && (observed.outstandingIntent.None? || observed.outstandingIntent == saved.outstandingIntent)
  }

  function Merged(observed: Journal): Journal {
    observed.(idleObservations := Latest(observed.idleObservations))
  }

  function RequiredOperation(effect: Effect): Operation
    requires !effect.NoEffect?
  {
    match effect
    case CreateVm(_, _, _) => OpCreate
    case AdoptVm(_, _) => OpCreate
    case StartVm(_, _) => OpStart
    case RegisterRunner(_) => OpRegister
    case BeginDrain(_) => OpRegister
    case ResumeAdmission => OpRegister
    case StopVm(_) => OpStop
    case DeleteVm(_) => OpDelete
  }

  function ExplicitDeadline(effect: Effect): Option<int> {
    match effect
    case CreateVm(_, _, deadlineMs) => Some(deadlineMs)
    case AdoptVm(_, deadlineMs) => Some(deadlineMs)
    case StartVm(_, deadlineMs) => Some(deadlineMs)
    case RegisterRunner(cutoffMs) => Some(cutoffMs)
    case BeginDrain(fallbackMs) => Some(fallbackMs)
    case _ => None
  }

  function AuthorizationFor(effect: Effect, input: Input): Authorization
    requires !effect.NoEffect? && input.permit.Some?
  {
    var permit := input.permit.value;
    var deadline :=
      if ExplicitDeadline(effect).Some? then ExplicitDeadline(effect)
      else if input.journal.grantDeadlineMs.Some? then input.journal.grantDeadlineMs
      else if input.guest.grant.Some? then Some(input.guest.grant.value.deadlineMs)
      else None;
    Authorization(permit.identity, permit.permitId, permit.expiresAtMs, RequiredOperation(effect), permit.recoveryAllowed, deadline)
  }

  function ApplyDecision(journal: Journal, decision: Decision, nowMs: int): Journal {
    match decision.effect
    case CreateVm(generation, _, deadlineMs) =>
      journal.(state := decision.state, grantDeadlineMs := None, grantStartedAtMs := None,
               outstandingIntent := Some(Intent(CreateIntent, generation, Pending, deadlineMs)))
    case StartVm(generation, deadlineMs) =>
      journal.(state := decision.state, startCount := generation,
               grantDeadlineMs := Some(deadlineMs), grantStartedAtMs := Some(nowMs),
               outstandingIntent := Some(Intent(StartIntent, generation, Pending, deadlineMs)))
    case _ => journal.(state := decision.state)
  }

  function MarkIntent(journal: Journal, status: EffectStatus): Journal {
    if journal.outstandingIntent.None? then journal
    else journal.(outstandingIntent := Some(journal.outstandingIntent.value.(status := status)))
  }

  function RecordedState(decision: Decision, journal: Journal, readbacks: seq<Readback>, input: Input): State
    requires !decision.effect.NoEffect? && input.permit.Some?
  {
    State(input.identity, ApplyDecision(journal, decision, input.nowMs),
          Some(PendingEffect(EffectId(input.identity.controllerId, input.nowMs, decision.effect), decision.effect, input.nowMs,
                             Pending, IntentStage, AuthorizationFor(decision.effect, input), None)),
          readbacks)
  }

  function EmittingState(s: State): State
    requires s.pendingEffect.Some?
  {
    s.(pendingEffect := Some(s.pendingEffect.value.(stage := EmittingStage)))
  }

  function WithReadback(readbacks: seq<Readback>, readback: Readback): seq<Readback> {
    if readback.None? then readbacks else Latest(readbacks + [readback])
  }

  // The journal after executeEffect returned, from the emitting state before it.
  function ResultState(s: State, reply: ExecReply): State
    requires s.pendingEffect.Some? && reply.ExecReturned?
  {
    State(s.identity,
          if reply.resolved then s.lifecycle.(outstandingIntent := None) else s.lifecycle,
          if reply.resolved then None
          else if reply.operationId.None? then s.pendingEffect
          else Some(s.pendingEffect.value.(operationId := reply.operationId)),
          WithReadback(s.readbacks, reply.readback))
  }

  function AmbiguousState(s: State): State
    requires s.pendingEffect.Some?
  {
    s.(lifecycle := MarkIntent(s.lifecycle, AmbiguousStatus),
       pendingEffect := Some(s.pendingEffect.value.(status := AmbiguousStatus)))
  }

  function AbandonedState(s: State): State {
    s.(lifecycle := s.lifecycle.(outstandingIntent := None), pendingEffect := None)
  }

  function BlockedState(s: State): State
    requires s.pendingEffect.Some?
  {
    s.(lifecycle := MarkIntent(s.lifecycle, BlockedStatus),
       pendingEffect := Some(s.pendingEffect.value.(status := BlockedStatus)))
  }

  function RetryState(s: State): State
    requires s.pendingEffect.Some?
  {
    s.(lifecycle := MarkIntent(s.lifecycle, Pending),
       pendingEffect := Some(s.pendingEffect.value.(stage := IntentStage, status := Pending)))
  }

  // A refused start hands its generation back; None when the refused start is not the journaled one.
  function WaitingState(s: State, refusal: CapacityRefusal, kind: IntentKind, input: Input): Option<State>
    requires s.pendingEffect.Some?
  {
    var effect := s.pendingEffect.value.effect;
    if effect.StartVm? && s.lifecycle.startCount != effect.generation then None
    else
      var wait := NextCapacityWait(s.lifecycle.capacityWait, refusal, kind, input.nowMs, input.config.timing.pollIntervalMs);
      Some(s.(lifecycle := s.lifecycle.(
                startCount := if effect.StartVm? then effect.generation - 1 else s.lifecycle.startCount,
                state := if kind == CreateIntent then Absent else Stopped,
                outstandingIntent := None, capacityWait := Some(wait), grantDeadlineMs := None, grantStartedAtMs := None),
              pendingEffect := None))
  }

  function ReconciledState(s: State, readback: Readback): State
    requires s.pendingEffect.Some?
  {
    var pending := s.pendingEffect.value;
    var unarmed := pending.effect.CreateVm? || pending.effect.DeleteVm?;
    var journal := s.lifecycle.(
      state := if pending.effect.CreateVm? then Stopped else s.lifecycle.state,
      outstandingIntent := None,
      grantDeadlineMs := if pending.effect.StartVm? || pending.effect.AdoptVm? then Some(pending.effect.deadlineMs)
                         else if unarmed then None else s.lifecycle.grantDeadlineMs,
      grantStartedAtMs := if pending.effect.StartVm? then Some(pending.createdAtMs)
                          else if unarmed then None else s.lifecycle.grantStartedAtMs,
      capacityWait := if pending.effect.StartVm? || pending.effect.DeleteVm? then None else s.lifecycle.capacityWait);
    State(s.identity, journal, None, Latest(s.readbacks + [readback]))
  }

  // ---- assertStateInvariants and parseControllerState ----

  function KindOf(effect: Effect): Option<IntentKind> {
    if effect.CreateVm? then Some(CreateIntent) else if effect.StartVm? then Some(StartIntent) else None
  }

  predicate PendingMatchesIntent(pending: PendingEffect, journal: Journal) {
    var kind := KindOf(pending.effect);
    if kind.None? then journal.outstandingIntent.None?
    else
      && journal.outstandingIntent.Some?
      && journal.outstandingIntent.value
         == Intent(kind.value, pending.effect.generation, pending.status, pending.effect.deadlineMs)
      && (if pending.effect.CreateVm? then pending.effect.reservedStartCount == journal.startCount + 1
          else journal.startCount >= pending.effect.generation)
  }

  predicate PendingAuthorized(pending: PendingEffect, identity: Identity) {
    && !pending.effect.NoEffect?
    && pending.authorization.identity == identity
    && pending.authorization.operation == RequiredOperation(pending.effect)
    && (ExplicitDeadline(pending.effect).Some? ==> pending.authorization.effectDeadlineMs == ExplicitDeadline(pending.effect))
  }

  predicate InvariantsHold(s: State) {
    && (s.pendingEffect.None? ==> s.lifecycle.outstandingIntent.None?)
    && (s.pendingEffect.Some? ==>
          PendingMatchesIntent(s.pendingEffect.value, s.lifecycle) && PendingAuthorized(s.pendingEffect.value, s.identity))
    && (forall e :: e in s.lifecycle.idleObservations ==> e.generation <= s.lifecycle.startCount)
  }

  predicate ParsesIdentity(id: Identity) {
    && id.configHash != "" && id.candidateDigest != "" && id.projectId != "" && id.controllerId != ""
    && id.resourcePrefix != "" && id.repositoryId > 0
  }

  predicate ParsesJournal(j: Journal) {
    && j.startCount >= 0 && j.cumulativeRuntimeMs >= 0 && j.cumulativeCostUsd >= 0.0
    && (j.grantStartedAtMs.Some? ==> j.grantDeadlineMs.Some? && j.grantStartedAtMs.value < j.grantDeadlineMs.value)
    && (forall e :: e in j.idleObservations ==> e.generation >= 1)
    && (j.capacityWait.Some? ==> j.capacityWait.value.detail != "" && j.capacityWait.value.refusals >= 1)
  }

  predicate ParsesEffect(effect: Effect) {
    match effect
    case NoEffect => false
    case CreateVm(generation, reserved, _) => generation >= 1 && reserved >= 1
    case AdoptVm(generation, _) => generation >= 1
    case StartVm(generation, _) => generation >= 1
    case DeleteVm(generation) => generation >= 1
    case _ => true
  }

  predicate ParsesPending(p: PendingEffect) {
    && ParsesEffect(p.effect) && ParsesIdentity(p.authorization.identity) && p.authorization.permitId != ""
    && p.authorization.operation != OpReleaseRouting
  }

  // Reading the journal back: None when parseControllerState throws.
  function Parse(s: State): Option<State> {
    var parsed := s.(lifecycle := Merged(s.lifecycle), readbacks := Latest(s.readbacks));
    if ParsesIdentity(s.identity) && ParsesJournal(s.lifecycle)
       && (s.pendingEffect.Some? ==> ParsesPending(s.pendingEffect.value)) && InvariantsHold(parsed)
    then Some(parsed) else None
  }

  // ---- the checks on a pending effect ----

  datatype Problem = IdentityChanged | PermitRemoved | PermitDiffers | OperationRevoked | AuthorizationExpired

  predicate IsRecovery(operation: Operation) { operation == OpStop || operation == OpDelete }

  function AuthorizationProblem(pending: PendingEffect, input: Input): Option<Problem> {
    var saved := pending.authorization;
    if saved.identity != input.identity then Some(IdentityChanged)
    else if input.permit.None? then Some(PermitRemoved)
    else
      var permit := input.permit.value;
      if saved.identity != permit.identity || permit.permitId != saved.permitId || permit.expiresAtMs != saved.permitExpiresAtMs then
        Some(PermitDiffers)
      else if saved.operation !in permit.operations then Some(OperationRevoked)
      else if input.nowMs >= saved.permitExpiresAtMs
           && !(IsRecovery(saved.operation) && saved.recoveryAllowed && permit.recoveryAllowed) then Some(AuthorizationExpired)
      else None
  }

  predicate IsStale(pending: PendingEffect, input: Input) {
    && !(pending.effect.StartVm? && input.provider.vmStatus == VmStopped)
    && !IsRecovery(pending.authorization.operation)
    && pending.authorization.effectDeadlineMs.Some?
    && input.nowMs > pending.authorization.effectDeadlineMs.value
  }

  predicate SettledOwned(input: Input, status: VmStatus) {
    && input.provider.complete && ExactlyOwned(input.provider)
    && input.provider.vmStatus == status && !input.provider.operationInFlight
  }

  predicate CanRetireRunningStart(pending: PendingEffect, input: Input) {
    && pending.effect.StartVm? && pending.stage == EmittingStage
    && pending.effect.generation == input.journal.startCount && SettledOwned(input, VmRunning)
  }

  predicate CanRetireStoppedStart(pending: PendingEffect, input: Input) {
    && pending.effect.StartVm? && input.nowMs >= pending.createdAtMs + input.config.timing.bootTimeoutMs
    && SettledOwned(input, VmStopped)
    && input.queue.complete && input.queue.ownedBusy == Some(false)
    && input.guest.complete && input.guest.status == Offline
    && input.guest.runnerActive == Some(false) && input.guest.workerActive == Some(false)
    && input.guest.grant.None?
    && CleanupProblem(input.permit, input.identity, input.nowMs).None?
  }

  predicate ExpiredButRetirable(pending: PendingEffect, input: Input) {
    && AuthorizationProblem(pending, input) == Some(AuthorizationExpired)
    && (pending.effect.BeginDrain? || pending.effect.RegisterRunner? || pending.effect.ResumeAdmission?
        || CanRetireRunningStart(pending, input))
    && pending.authorization.recoveryAllowed
    && input.permit.Some? && input.permit.value.recoveryAllowed
    && IsStale(pending, input)
  }

  // ---- the plan of one tick ----

  function Single(kind: SaveKind, state: State, status: TickStatus): Plan { Plan([Save(kind, state)], status) }

  function AbandonPlan(s: State): Plan { Single(AbandonedSave, AbandonedState(s), TickAbandoned) }

  function BlockPlan(s: State): Plan
    requires s.pendingEffect.Some?
  {
    Single(BlockedSave, BlockedState(s), TickBlocked)
  }

  function WaitPlan(s: State, refusal: CapacityRefusal, kind: IntentKind, input: Input): Plan
    requires s.pendingEffect.Some?
  {
    var waiting := WaitingState(s, refusal, kind, input);
    if waiting.Some? && InvariantsHold(waiting.value) then Single(WaitingSave, waiting.value, TickWaiting)
    else Plan([], TickThrew)
  }

  function Then(steps: seq<Step>, plan: Plan): Plan { Plan(steps + plan.steps, plan.status) }

  // What follows the provider call, from the emitting state.
  function OutcomePlan(s: State, reply: ExecReply, input: Input): Plan
    requires s.pendingEffect.Some?
  {
    var ambiguous := Single(AmbiguousSave, AmbiguousState(s), TickThrew);
    var kind := KindOf(s.pendingEffect.value.effect);
    match reply
    case ExecThrew => ambiguous
    case ExecRefused(refusal) => if kind.Some? then WaitPlan(s, refusal, kind.value, input) else ambiguous
    case ExecReturned(_, _, _, eventLost) =>
      if !InvariantsHold(ResultState(s, reply)) then ambiguous
      else Then([Save(ResultSave, ResultState(s, reply))], if eventLost then ambiguous else Plan([], TickMutated))
  }

  function ExecutePlan(s: State, input: Input, env: Environment): Plan
    requires s.pendingEffect.Some?
  {
    var pending := s.pendingEffect.value;
    if AuthorizationProblem(pending, input).Some? then BlockPlan(s)
    else if IsStale(pending, input) then AbandonPlan(s)
    else
      var emitting := EmittingState(s);
      Then([Save(EmittingSave, emitting), Emit(pending.effect, env.execute)], OutcomePlan(emitting, env.execute, input))
  }

  function RecordPlan(decision: Decision, journal: Journal, readbacks: seq<Readback>, input: Input, env: Environment): Plan
    requires !decision.effect.NoEffect?
  {
    if !Permits(input.permit, RequiredOperation(decision.effect)) then Plan([], TickThrew)
    else
      var s := RecordedState(decision, journal, readbacks, input);
      if !InvariantsHold(s) then Plan([], TickThrew)
      else Then([Save(IntentSave, s)], ExecutePlan(s, input, env))
  }

  function FreshPlan(prior: Option<State>, input: Input, env: Environment, dryRun: bool): Plan
    requires prior.Some? ==> prior.value.pendingEffect.None?
  {
    if prior.Some? && !RegressionFree(prior.value.lifecycle, input.journal) then Plan([], TickThrew)
    else
      var journal := if prior.None? then input.journal else Merged(input.journal);
      var readbacks := if prior.None? then [] else prior.value.readbacks;
      var decision := DecideLifecycle(input.(journal := journal));
      if decision.effect.NoEffect? then
        var observed := State(input.identity, journal, None, readbacks);
        if Parse(observed).None? then Plan([], TickThrew)
        else
          Single(ObservedSave, observed,
                 if decision.state == Blocked then TickBlocked
                 else if decision.reason == CapacityHeld then TickWaiting else TickIdle)
      else if dryRun then Plan([], TickDryRun)
      else RecordPlan(decision, journal, readbacks, input, env)
  }

  function RetireDecision(journal: Journal): Decision {
    Decision(Absent, DeleteVm(journal.startCount), StartStoppedBeforeRegistration)
  }

  // An effect already handed to the provider: only reconciliation may move it on.
  function ReconcilePlan(prior: State, input: Input, env: Environment): Plan
    requires prior.pendingEffect.Some?
  {
    var pending := prior.pendingEffect.value;
    match env.reconcile
    case ReconcileThrew => Plan([], TickThrew)
    case Reconciled(resolved, retry, retire, readback, refusal) =>
      var withReadback := prior.(readbacks := WithReadback(prior.readbacks, readback));
      var regression := !RegressionFree(prior.lifecycle, input.journal);
      var merged := withReadback.(lifecycle := Merged(input.journal));
      if refusal.Some? && retire && pending.effect.StartVm? && SettledOwned(input, VmStopped) then
        if regression then Plan([], TickThrew) else WaitPlan(merged, refusal.value, StartIntent, input)
      else if retire && CanRetireStoppedStart(pending, input) then
        if regression then Plan([], TickThrew)
        else RecordPlan(RetireDecision(merged.lifecycle), merged.lifecycle.(outstandingIntent := None), merged.readbacks, input, env)
      else if refusal.Some? && pending.effect.CreateVm? && input.provider.complete && ProvenAbsent(input.provider) then
        WaitPlan(withReadback, refusal.value, CreateIntent, input)
      else if !resolved && retry then
        Then([Save(RetrySave, RetryState(prior))], ExecutePlan(RetryState(prior), input, env))
      else if !resolved then
        if readback.None? then Plan([], TickPending) else Single(ReadbackSave, withReadback, TickPending)
      else Single(ReconciledSave, ReconciledState(prior, readback), TickReconciled)
  }

  function PendingPlan(prior: State, input: Input, env: Environment): Plan
    requires prior.pendingEffect.Some?
  {
    var pending := prior.pendingEffect.value;
    if AuthorizationProblem(pending, input).Some? then
      if ExpiredButRetirable(pending, input) then AbandonPlan(prior) else BlockPlan(prior)
    else if IsStale(pending, input) then AbandonPlan(prior)
    else if pending.stage == IntentStage then ExecutePlan(prior, input, env)
    else ReconcilePlan(prior, input, env)
  }

  // One tick over the journal as it was read back.
  function TickPlan(journal: Option<State>, input: Input, env: Environment, dryRun: bool): Plan {
    if journal.Some? && Parse(journal.value).None? then Plan([], TickThrew)
    else
      var prior := if journal.None? then None else Parse(journal.value);
      if prior.Some? && prior.value.identity != input.identity then Plan([], TickThrew)
      else if prior.Some? && prior.value.pendingEffect.Some? then
        if dryRun then Plan([], TickDryRun) else PendingPlan(prior.value, input, env)
      else FreshPlan(prior, input, env, dryRun)
  }
}
