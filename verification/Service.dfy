/**
 Why a permit cannot serve, and when the controller's own VM may still take a job (packages/runner/src/routing.ts,
 assessService and ownedRunnerMayTakeJobs).
 */
module Service {
  import opened Contracts
  import opened Lifecycle
  import opened Routing
  import opened Orders

  // ---- the reason given ----

  // What is asked of a permit.
  datatype Question = Question(
    permit: Option<Permit>, nowMs: int, timing: Timing, known: KnownIdentity, startCount: int, runtimeMs: int, costUsd: real,
    projected: Cost, repositoryPrivate: bool)

  function Answer(q: Question): Assessment {
    Assess(q.permit, q.nowMs, q.timing, q.known, q.startCount, q.runtimeMs, q.costUsd, q.projected, q.repositoryPrivate)
  }

  predicate Differs<T(==)>(known: Option<T>, value: T) { known.Some? && known.value != value }

  // What a reason says of the permit.
  predicate Complaint(q: Question, reason: ServiceRefusal) {
    if reason.RepositoryNotPrivate? then !q.repositoryPrivate
    else if reason.NoPermit? then q.permit.None?
    else q.permit.Some? && PermitComplaint(q, q.permit.value, reason)
  }

  predicate PermitComplaint(q: Question, p: Permit, reason: ServiceRefusal) {
    match reason
    case RepositoryNotPrivate => false
    case NoPermit => false
    case IdentityMismatch =>
      || Differs(q.known.configHash, p.identity.configHash) || Differs(q.known.candidateDigest, p.identity.candidateDigest)
      || Differs(q.known.repositoryId, p.identity.repositoryId) || Differs(q.known.projectId, p.identity.projectId)
      || Differs(q.known.controllerId, p.identity.controllerId) || Differs(q.known.resourcePrefix, p.identity.resourcePrefix)
    case OperationsMissing => OpCreate !in p.operations || OpStart !in p.operations || OpRegister !in p.operations
    case NotActiveYet => q.nowMs < p.issuedAtMs
    case Expired => p.expiresAtMs <= q.nowMs
    case StartsUsedUp => p.maxStarts <= q.startCount
    case RuntimeUsedUp => p.maxRuntimeMs < q.runtimeMs + q.timing.maxJobMs + q.timing.shutdownMarginMs
    case CostUsedUp => q.projected.Unbounded? || p.maxTotalCostUsd < q.costUsd + q.projected.usd
    case PastServiceEnd => p.expiresAtMs < q.nowMs + q.timing.maxJobMs + q.timing.shutdownMarginMs
  }

  // The order in which the reasons are asked for.
  function Rank(reason: ServiceRefusal): nat {
    match reason
    case RepositoryNotPrivate => 0
    case NoPermit => 1
    case IdentityMismatch => 2
    case OperationsMissing => 3
    case NotActiveYet => 4
    case Expired => 5
    case StartsUsedUp => 6
    case RuntimeUsedUp => 7
    case CostUsedUp => 8
    case PastServiceEnd => 9
  }

  lemma FirstComplaint(q: Question, reason: ServiceRefusal)
    ensures Answer(q).Unserviceable? ==> Complaint(q, Answer(q).reason)
    ensures Complaint(q, reason) ==> Answer(q).Unserviceable? && Rank(Answer(q).reason) <= Rank(reason)
  {
  }

  // The reason given is the first that is true, and none is true exactly when the permit serves.
  lemma ReasonExactly(q: Question, reason: ServiceRefusal)
    ensures Answer(q).Serviceable? <==> forall r :: !Complaint(q, r)
    ensures Answer(q).Unserviceable? && Answer(q).reason == reason
            <==> Complaint(q, reason) && forall r :: Complaint(q, r) ==> Rank(reason) <= Rank(r)
  {
    forall r ensures Complaint(q, r) ==> Answer(q).Unserviceable? && Rank(Answer(q).reason) <= Rank(r) {
      FirstComplaint(q, r);
    }
    FirstComplaint(q, reason);
  }

  // The end named is the last instant at which a whole job and its margin still fit the permit.
  lemma EndExactly(q: Question, t: int)
    requires q.permit.Some?
    ensures var end := if Answer(q).Serviceable? then Some(Answer(q).serviceEndMs) else Answer(q).lastEndMs;
            end.Some? && (t <= end.value <==> !Complaint(q.(nowMs := t), PastServiceEnd))
  {
  }

  // ---- the controller's own VM ----

  // ownedRunnerMayTakeJobs, after the tick that took this decision.
  predicate MayTakeJobs(provider: Provider, journal: Journal, decision: Option<Decision>) {
    provider.vmStatus !in {VmAbsent, VmStopped} || journal.outstandingIntent.Some? || (decision.Some? && !decision.value.effect.NoEffect?)
  }

  ghost predicate CreateOrdered(input: Input) { Allows(input, OpCreate) && exists d :: CreateDue(input, d) }

  ghost predicate StartOrdered(input: Input) { Allows(input, OpStart) && exists d :: StartDue(input, d) }

  ghost predicate DeleteOrdered(input: Input) { AllowsCleanup(input) && exists g :: DeleteDue(input, g) }

  lemma DownOrders(input: Input)
    requires input.provider.vmStatus in {VmAbsent, VmStopped} && input.journal.outstandingIntent.None?
    requires ParsedConfig(input.config) && (input.permit.Some? ==> ParsedPermit(input.permit.value))
    ensures var effect := DecideLifecycle(input).effect; effect.NoEffect? || effect.CreateVm? || effect.StartVm? || effect.DeleteVm?
  {
    Route(input);
    OwnedExactly(input);
    RestExactly(input);
    WorkAsksStart(input);
  }

  // Stranded runs are left alone exactly while a VM is neither absent nor stopped, an intent is outstanding, or the tick
  // ordered the creation, the start or the deletion of a VM.
  lemma MayTakeExactly(input: Input)
    requires ParsedConfig(input.config) && (input.permit.Some? ==> ParsedPermit(input.permit.value))
    ensures MayTakeJobs(input.provider, input.journal, Some(DecideLifecycle(input)))
            <==> (|| input.provider.vmStatus !in {VmAbsent, VmStopped} || input.journal.outstandingIntent.Some?
                  || CreateOrdered(input) || StartOrdered(input) || DeleteOrdered(input))
  {
    var effect := DecideLifecycle(input).effect;
    if input.provider.vmStatus in {VmAbsent, VmStopped} && input.journal.outstandingIntent.None? {
      DownOrders(input);
      CreateNeverUnordered(input);
      StartNeverUnordered(input);
      DeleteNeverUnordered(input);
    }
  }

  lemma CreateNeverUnordered(input: Input)
    requires ParsedConfig(input.config) && (input.permit.Some? ==> ParsedPermit(input.permit.value))
    ensures CreateOrdered(input) <==> DecideLifecycle(input).effect.CreateVm?
  {
    var effect := DecideLifecycle(input).effect;
    if effect.CreateVm? {
      CreateExactly(input, effect.generation, effect.reservedStartCount, effect.deadlineMs);
    }
    if CreateOrdered(input) {
      var d :| CreateDue(input, d);
      CreateExactly(input, input.journal.startCount + 1, input.journal.startCount + 1, d);
    }
  }

  lemma StartNeverUnordered(input: Input)
    requires ParsedConfig(input.config) && (input.permit.Some? ==> ParsedPermit(input.permit.value))
    ensures StartOrdered(input) <==> DecideLifecycle(input).effect.StartVm?
  {
    var effect := DecideLifecycle(input).effect;
    if effect.StartVm? {
      StartExactly(input, effect.generation, effect.deadlineMs);
    }
    if StartOrdered(input) {
      var d :| StartDue(input, d);
      StartExactly(input, input.journal.startCount + 1, d);
    }
  }

  lemma DeleteNeverUnordered(input: Input)
    requires input.permit.Some? ==> ParsedPermit(input.permit.value)
    ensures DeleteOrdered(input) <==> DecideLifecycle(input).effect.DeleteVm?
  {
    var effect := DecideLifecycle(input).effect;
    if effect.DeleteVm? {
      DeleteExactly(input, effect.generation);
    }
    if DeleteOrdered(input) {
      var g :| DeleteDue(input, g);
      DeleteExactly(input, g);
    }
  }
}
