/**
 The records the runner controller exchanges: permits, provider, queue and guest snapshots,
 the lifecycle journal, effects and decisions (packages/runner/src/contracts.ts).
 Times are integer milliseconds and money is exact reals.
 */
module Contracts {

  datatype Option<+T> = None | Some(value: T) {
    function GetOr(default: T): T {
      if Some? then value else default
    }
  }

  function Min(a: int, b: int): int { if a <= b then a else b }

  function Max(a: int, b: int): int { if a <= b then b else a }

  datatype LifecycleState = Absent | Stopped | Starting | Ready | Busy | Draining | Stopping | Blocked

  // Journal states in which the controller believes its guest is up.
  predicate GuestUp(state: LifecycleState) {
    state in {Starting, Ready, Busy, Draining}
  }

  datatype Operation = OpCreate | OpStart | OpRegister | OpStop | OpDelete | OpReleaseRouting

  datatype Identity = Identity(
    configHash: string, candidateDigest: string, repositoryId: int,
    projectId: string, controllerId: string, resourcePrefix: string)

  datatype Permit = Permit(
    identity: Identity, permitId: string, operations: set<Operation>,
    issuedAtMs: int, expiresAtMs: int, maxStarts: int, maxRuntimeMs: int,
    maxTotalCostUsd: real, recoveryAllowed: bool)

  datatype Timing = Timing(
    pollIntervalMs: int, idleGraceMs: int, bootTimeoutMs: int,
    maxJobMs: int, lifetimeMs: int, shutdownMarginMs: int)

  datatype Config = Config(timing: Timing, deleteAfterStop: bool)

  datatype VmStatus = VmAbsent | VmStopped | VmStarting | VmRunning | VmStopping | VmError | VmUnknown
  datatype Ownership = OwnAbsent | Owned | Foreign | Ambiguous | OwnUnknown
  datatype GuestStatus =
    Offline | Booting | GuestReady | GuestBusy | GuestDraining | Drained | Failed | GuestUnknown

  datatype Provider = Provider(
    complete: bool, vmStatus: VmStatus, ownership: Ownership, ownedMatches: int, operationInFlight: bool)

  datatype Queue = Queue(complete: bool, eligibleQueuedJobs: int, ownedBusy: Option<bool>, observedAtMs: int)

  datatype Grant = Grant(generation: int, startedAtMs: int, deadlineMs: int)

  // An absent optional flag and an explicit false read alike: the code only asks for true.
  datatype Guest = Guest(
    complete: bool, status: GuestStatus, admissionEnabled: Option<bool>, runnerActive: Option<bool>,
    workerActive: Option<bool>, grant: Option<Grant>,
    watchdogReady: bool, sshIdentityVerified: bool, registrationReady: bool)

  datatype IntentKind = CreateIntent | StartIntent
  datatype EffectStatus = Pending | AmbiguousStatus | BlockedStatus

  datatype Intent = Intent(kind: IntentKind, generation: int, status: EffectStatus, deadlineMs: int)

  datatype IdleObservation = IdleObservation(observedAtMs: int, complete: bool, generation: int)

  datatype CapacityRefusal = CapacityRefusal(quotas: seq<string>)

  datatype CapacityWait = CapacityWait(
    refusedEffect: IntentKind, detail: string, firstRefusedAtMs: int, lastRefusedAtMs: int,
    refusals: int, retryAtMs: int)

  // A missing grantStartedAtMs or capacityWait and an explicit null are the same value here.
  datatype Journal = Journal(
    state: LifecycleState, startCount: int, cumulativeRuntimeMs: int, cumulativeCostUsd: real,
    outstandingIntent: Option<Intent>, idleObservations: seq<IdleObservation>,
    grantDeadlineMs: Option<int>, grantStartedAtMs: Option<int>, capacityWait: Option<CapacityWait>)

  // The projected cost of one start; without an egress limit it is unbounded.
  datatype Cost = Finite(usd: real) | Unbounded

  datatype Input = Input(
    nowMs: int, config: Config, identity: Identity, permit: Option<Permit>, provider: Provider,
    queue: Queue, guest: Guest, journal: Journal, projectedStartCost: Cost)

  datatype Effect =
    | NoEffect
    | CreateVm(generation: int, reservedStartCount: int, deadlineMs: int)
    | AdoptVm(generation: int, deadlineMs: int)
    | StartVm(generation: int, deadlineMs: int)
    | RegisterRunner(assignmentCutoffMs: int)
    | BeginDrain(fallbackDeadlineMs: int)
    | ResumeAdmission
    | StopVm(emergency: bool)
    | DeleteVm(generation: int)

  // Why a decision was taken or a permit refused, one constructor per message.
  datatype Reason =
    | PermitAbsent | PermitNumberInvalid | PermitMaxStartsInvalid | PermitNotActive | PermitExpired
    | PermitExpiryOrder | PermitNoOperations | PermitIdentityMismatch | PermitNoRecovery
    | PermitLacks(operation: Operation)
    | MatchCountInvalid | LifetimeReached | EmergencyStopNotAuthorized
    | QueueCountInvalid | QueueFromFuture | QueueStale
    | AdoptionIncomplete | AdoptionRejects | Adopted | CreateUnresolved
    | NoDemand | CapacityHeld | StartsExhausted | CreateNeeded
    | OwnershipIs(ownership: Ownership) | ObservationsIncomplete | UncertainState | ReconcileFirst
    | GrantGenerationDiffers | OwnedJobBusy | LifetimeSpentWhileUp | StoppedOutside
    | WorkArrivedDuringDrain | IdleDuringCapacityWait | IdleStopped | StartNeeded
    | NoGrant | LifetimeTooShort | JobFits | NotDrainedAgain | NotConclusivelyDrained
    | GraceNotEarned | GraceEarned | NoWork | NoTransition
    | RuntimeInvalid | CostInvalid | ProjectedCostInvalid | RuntimeExhausted | CostExceeded
    | JobDoesNotFit | StartStoppedBeforeRegistration

  datatype Decision = Decision(state: LifecycleState, effect: Effect, reason: Reason)

  // What parsePermit and parseRunnerConfig guarantee about the values used here.
  predicate ParsedPermit(p: Permit) {
    && p.permitId != ""
    && 0 < p.issuedAtMs < p.expiresAtMs
    && 0 < p.maxStarts && 0 < p.maxRuntimeMs && 0.0 <= p.maxTotalCostUsd
    && p.operations != {}
  }

  predicate ParsedConfig(c: Config) {
    && 2000 <= c.timing.pollIntervalMs && 0 < c.timing.idleGraceMs && 0 < c.timing.bootTimeoutMs
    && 0 < c.timing.maxJobMs && 0 < c.timing.lifetimeMs && 0 < c.timing.shutdownMarginMs
    && c.timing.maxJobMs + c.timing.shutdownMarginMs <= c.timing.lifetimeMs
  }
}
