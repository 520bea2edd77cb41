/**
 The pure decision table of the runner controller (packages/runner/src/lifecycle.ts):
 permit checks, the start budget, idle grace, capacity back-off and `decideLifecycle`.
 */
module Lifecycle {
  import opened Contracts
  import opened Sorting

  const DRAIN_FALLBACK_MS := 600_000
  const CAPACITY_RETRY_BASE_MS := 120_000
  const CAPACITY_RETRY_MAX_MS := 960_000

  // ---- permits: None means valid ----

  function PermitProblem(permit: Option<Permit>, identity: Identity, nowMs: int): Option<Reason> {
    if permit.None? then Some(PermitAbsent)
    else
      var p := permit.value;
      if p.issuedAtMs <= 0 || p.expiresAtMs <= 0 || p.maxRuntimeMs <= 0 || p.maxTotalCostUsd < 0.0 then Some(PermitNumberInvalid)
      else if p.maxStarts <= 0 then Some(PermitMaxStartsInvalid)
      else if p.issuedAtMs > nowMs then Some(PermitNotActive)
      else if p.expiresAtMs <= nowMs then Some(PermitExpired)
      else if p.expiresAtMs <= p.issuedAtMs then Some(PermitExpiryOrder)
      else if p.operations == {} then Some(PermitNoOperations)
      else if p.identity != identity then Some(PermitIdentityMismatch)
      else None
  }

  predicate Permits(permit: Option<Permit>, operation: Operation) {
    permit.Some? && operation in permit.value.operations
  }

  function RecoveryProblem(permit: Option<Permit>, identity: Identity, nowMs: int): Option<Reason> {
    if permit.None? then Some(PermitAbsent)
    else if PermitProblem(permit, identity, permit.value.issuedAtMs).Some? then
      PermitProblem(permit, identity, permit.value.issuedAtMs)
    else if permit.value.issuedAtMs > nowMs then Some(PermitNotActive)
    else if !permit.value.recoveryAllowed then Some(PermitNoRecovery)
    else None
  }

  // Cleanup of an already stopped VM survives permit expiry when the permit allows recovery.
  function CleanupProblem(permit: Option<Permit>, identity: Identity, nowMs: int): Option<Reason> {
    var authority := if PermitProblem(permit, identity, nowMs).None? then None else RecoveryProblem(permit, identity, nowMs);
    if authority.Some? then authority
    else if !Permits(permit, OpDelete) then Some(PermitLacks(OpDelete))
    else None
  }

  function Block(reason: Reason): Decision { Decision(Blocked, NoEffect, reason) }

  function Authorized(input: Input, operation: Operation, decision: Decision): Decision {
    var problem := PermitProblem(input.permit, input.identity, input.nowMs);
    if problem.Some? then Block(problem.value)
    else if !Permits(input.permit, operation) then Block(PermitLacks(operation))
    else decision
  }

  function AuthorizedCleanup(input: Input, decision: Decision): Decision {
    var problem := CleanupProblem(input.permit, input.identity, input.nowMs);
    if problem.Some? then Block(problem.value) else decision
  }

  // ---- budgets and deadlines ----

  datatype Budget = Available(runtimeMs: int) | Refused(reason: Reason)

  function StartBudget(input: Input): Budget {
    var problem := PermitProblem(input.permit, input.identity, input.nowMs);
    if problem.Some? then Refused(problem.value)
    else
      var permit := input.permit.value;
      var timing := input.config.timing;
      if input.journal.cumulativeRuntimeMs < 0 then Refused(RuntimeInvalid)
      else if input.journal.cumulativeCostUsd < 0.0 then Refused(CostInvalid)
      else if input.projectedStartCost.Unbounded? || input.projectedStartCost.usd < 0.0 then Refused(ProjectedCostInvalid)
      else
        var remaining := permit.maxRuntimeMs - input.journal.cumulativeRuntimeMs;
        if remaining <= 0 then Refused(RuntimeExhausted)
        else if input.journal.cumulativeCostUsd + input.projectedStartCost.usd > permit.maxTotalCostUsd then Refused(CostExceeded)
        else
          var available := Min(Min(timing.lifetimeMs, remaining), permit.expiresAtMs - input.nowMs);
          if available < timing.maxJobMs + timing.shutdownMarginMs then Refused(JobDoesNotFit)
          else Available(available)
  }

  function SafeCutoffMs(grantDeadlineMs: int, permitDeadlineMs: int, timing: Timing): int {
    Min(grantDeadlineMs, permitDeadlineMs) - timing.maxJobMs - timing.shutdownMarginMs
  }

  function DrainDeadlineMs(grantDeadlineMs: int, nowMs: int): int {
    Min(grantDeadlineMs, nowMs + DRAIN_FALLBACK_MS)
  }

  function PermitExpiry(permit: Option<Permit>): int {
    if permit.Some? then permit.value.expiresAtMs else 0
  }

  function MaxStarts(permit: Option<Permit>): int {
    if permit.Some? then permit.value.maxStarts else 0
  }

  // ---- capacity waits ----

  function Pow2(n: nat): nat { if n == 0 then 1 else 2 * Pow2(n - 1) }

  function Joined(names: seq<string>): string
    requires names != []
  {
    if |names| == 1 then names[0] else names[0] + [','] + Joined(names[1..])
  }

  function NextCapacityWait(
    previous: Option<CapacityWait>, refusal: CapacityRefusal, refusedEffect: IntentKind,
    nowMs: int, pollIntervalMs: int): CapacityWait
  {
    var continuing := previous.Some? && nowMs - previous.value.retryAtMs <= CAPACITY_RETRY_MAX_MS;
    var refusals := if continuing then previous.value.refusals + 1 else 1;
    var backoffMs := Min(CAPACITY_RETRY_MAX_MS, CAPACITY_RETRY_BASE_MS * Pow2(Min(Max(refusals - 1, 0), 16)));
    CapacityWait(
      refusedEffect,
      if |refusal.quotas| > 0 then Joined(refusal.quotas) else "provider quota exhausted",
      if continuing then previous.value.firstRefusedAtMs else nowMs,
      nowMs, refusals, nowMs + Max(pollIntervalMs, backoffMs))
  }

  // Whether a capacity wait is still in force at this instant.
  predicate CapacityHolds(input: Input) {
    input.journal.capacityWait.Some? && input.nowMs < input.journal.capacityWait.value.retryAtMs
  }

  // ---- idle evidence ----

  function OfGeneration(s: seq<IdleObservation>, generation: int, nowMs: int): seq<IdleObservation> {
    if s == [] then []
    else
      var rest := OfGeneration(s[..|s| - 1], generation, nowMs);
      var last := s[|s| - 1];
      if last.generation == generation && last.observedAtMs <= nowMs then rest + [last] else rest
  }

  // The entries after the last incomplete one.
  function CompleteTail(s: seq<IdleObservation>): seq<IdleObservation> {
    if s == [] || !s[|s| - 1].complete then [] else CompleteTail(s[..|s| - 1]) + [s[|s| - 1]]
  }

  function ObservedAt(entry: IdleObservation): int { entry.observedAtMs }

  function Evidence(s: seq<IdleObservation>, generation: int, nowMs: int): seq<IdleObservation> {
    CompleteTail(SortBy(OfGeneration(s, generation, nowMs), ObservedAt))
  }

  predicate GraceOf(evidence: seq<IdleObservation>, queueAtMs: int, nowMs: int, timing: Timing) {
    && |evidence| >= 2
    && evidence[|evidence| - 1].observedAtMs == queueAtMs
    && nowMs - evidence[|evidence| - 1].observedAtMs <= timing.pollIntervalMs
    && evidence[|evidence| - 1].observedAtMs - evidence[0].observedAtMs >= timing.idleGraceMs
  }

  predicate IdleGraceSatisfied(input: Input) {
    && input.guest.grant.Some?
    && GraceOf(Evidence(input.journal.idleObservations, input.guest.grant.value.generation, input.nowMs),
               input.queue.observedAtMs, input.nowMs, input.config.timing)
  }

  predicate GuestIsDrained(input: Input) {
    && input.guest.status == Drained
    && input.guest.admissionEnabled == Some(false)
    && input.guest.runnerActive == Some(false)
    && input.guest.workerActive == Some(false)
    && input.queue.ownedBusy == Some(false)
  }

  // ---- the decision ----

  function QueueProblem(input: Input): Option<Reason> {
    if input.queue.eligibleQueuedJobs < 0 then Some(QueueCountInvalid)
    else if input.queue.observedAtMs > input.nowMs then Some(QueueFromFuture)
    else if input.nowMs - input.queue.observedAtMs > input.config.timing.pollIntervalMs then Some(QueueStale)
    else None
  }

  predicate ProvenAbsent(provider: Provider) {
    provider.vmStatus == VmAbsent && provider.ownership == OwnAbsent && provider.ownedMatches == 0
  }

  predicate ExactlyOwned(provider: Provider) {
    provider.ownership == Owned && provider.ownedMatches == 1
  }

  // The guest grant, never later than the journaled deadline of the generation.
  function EffectiveGrant(input: Input): Option<Grant> {
    if input.guest.grant.None? then None
    else
      var grant := input.guest.grant.value;
      Some(grant.(deadlineMs := if input.journal.grantDeadlineMs.None? then grant.deadlineMs
                                else Min(input.journal.grantDeadlineMs.value, grant.deadlineMs)))
  }

  predicate LifetimeOver(input: Input) {
    input.journal.grantDeadlineMs.Some? && input.nowMs >= input.journal.grantDeadlineMs.value
  }

  function DecideLifecycle(input: Input): Decision {
    if input.provider.ownedMatches < 0 then Block(MatchCountInvalid)
    else if LifetimeOver(input) && input.journal.startCount > 0 && input.journal.outstandingIntent.None?
         && ExactlyOwned(input.provider) && input.provider.vmStatus !in {VmStopped, VmAbsent} then
      DecideEmergencyStop(input)
    else if QueueProblem(input).Some? then Block(QueueProblem(input).value)
    else if input.journal.outstandingIntent.Some? && input.journal.outstandingIntent.value.kind == CreateIntent then
      DecideAdoption(input, input.journal.outstandingIntent.value)
    else if ProvenAbsent(input.provider) then DecideCreate(input)
    else if !ExactlyOwned(input.provider) then Block(OwnershipIs(input.provider.ownership))
    else if !input.provider.complete || !input.queue.complete || !input.guest.complete || input.queue.ownedBusy.None? then
      Block(ObservationsIncomplete)
    else if input.provider.vmStatus in {VmError, VmUnknown} || input.guest.status in {Failed, GuestUnknown} then
      Block(UncertainState)
    else if input.provider.operationInFlight || input.journal.outstandingIntent.Some? then
      Decision(input.journal.state, NoEffect, ReconcileFirst)
    else DecideOwned(input)
  }

  function DecideEmergencyStop(input: Input): Decision {
    var recovery := RecoveryProblem(input.permit, input.identity, input.nowMs);
    if recovery.None? && Permits(input.permit, OpStop) then Decision(Stopping, StopVm(true), LifetimeReached)
    else Block(if recovery.None? then EmergencyStopNotAuthorized else recovery.value)
  }

  // Unreachable through the controller, which never decides while an intent is outstanding.
  function DecideAdoption(input: Input, intent: Intent): Decision {
    if !ExactlyOwned(input.provider) then Block(CreateUnresolved)
    else if !input.provider.complete then Block(AdoptionIncomplete)
    else if input.provider.vmStatus !in {VmStopped, VmStarting, VmRunning} then Block(AdoptionRejects)
    else
      var guest := input.guest;
      var fullyReady := input.provider.vmStatus == VmRunning && guest.complete && guest.status == GuestReady
                        && guest.watchdogReady && guest.sshIdentityVerified && guest.registrationReady;
      Decision(if input.provider.vmStatus == VmStopped then Stopped else if fullyReady then Ready else Starting,
               AdoptVm(intent.generation, intent.deadlineMs), Adopted)
  }

  function DecideCreate(input: Input): Decision {
    if !input.provider.complete || !input.queue.complete || input.queue.eligibleQueuedJobs == 0 then
      Decision(Absent, NoEffect, NoDemand)
    else if CapacityHolds(input) && input.journal.capacityWait.value.refusedEffect == CreateIntent then
      Decision(Absent, NoEffect, CapacityHeld)
    else
      match StartBudget(input)
      case Refused(reason) => Block(reason)
      case Available(runtimeMs) =>
        if input.journal.startCount >= MaxStarts(input.permit) then Block(StartsExhausted)
        else
          var generation := input.journal.startCount + 1;
          Authorized(input, OpCreate,
                     Decision(Starting, CreateVm(generation, generation, input.nowMs + runtimeMs), CreateNeeded))
  }

  // One owned VM, completely observed, nothing outstanding.
  function DecideOwned(input: Input): Decision {
    var vm, guest, journal := input.provider.vmStatus, input.guest, input.journal;
    var grant := EffectiveGrant(input);
    if vm == VmRunning && GuestUp(journal.state) && grant.Some? && grant.value.generation != journal.startCount then
      Block(GrantGenerationDiffers)
    else if input.queue.ownedBusy == Some(true) || guest.workerActive == Some(true) || guest.status == GuestBusy then
      Decision(Busy, NoEffect, OwnedJobBusy)
    else if vm == VmStopped && GuestUp(journal.state) then
      if LifetimeOver(input) && journal.startCount >= 1 then
        AuthorizedCleanup(input, Decision(Absent, DeleteVm(journal.startCount), LifetimeSpentWhileUp))
      else Block(StoppedOutside)
    else DecideWork(input)
  }

  // The guest is idle and where the journal believes it to be.
  function DecideWork(input: Input): Decision {
    var vm, guest, journal := input.provider.vmStatus, input.guest, input.journal;
    var grant := EffectiveGrant(input);
    var jobs := input.queue.eligibleQueuedJobs;
    if journal.state == Draining && jobs > 0 && vm == VmRunning && guest.status == Drained && grant.Some?
         && input.nowMs <= SafeCutoffMs(grant.value.deadlineMs, PermitExpiry(input.permit), input.config.timing) then
      Authorized(input, OpRegister, Decision(Ready, ResumeAdmission, WorkArrivedDuringDrain))
    else if vm == VmStopped && journal.capacityWait.Some? && journal.state == Stopped && jobs == 0 && input.config.deleteAfterStop then
      AuthorizedCleanup(input, Decision(Absent, DeleteVm(Max(1, journal.startCount)), IdleDuringCapacityWait))
    else if vm == VmStopped && journal.state == Stopping && journal.startCount > 0 && jobs == 0 && input.config.deleteAfterStop then
      AuthorizedCleanup(input, Decision(Absent, DeleteVm(journal.startCount), IdleStopped))
    else if vm == VmStopped && jobs > 0 then DecideStart(input)
    else if vm == VmRunning && jobs > 0 && guest.status == GuestReady then DecideRegister(input, grant)
    else if journal.state == Draining && vm == VmRunning then DecideDraining(input, grant)
    else if vm == VmRunning && jobs == 0 && guest.status == GuestReady && grant.Some? then
      Authorized(input, OpRegister,
                 Decision(Draining, BeginDrain(DrainDeadlineMs(grant.value.deadlineMs, input.nowMs)), NoWork))
    else Decision(journal.state, NoEffect, NoTransition)
  }

  function DecideStart(input: Input): Decision {
    if CapacityHolds(input) then Decision(input.journal.state, NoEffect, CapacityHeld)
    else if input.journal.startCount >= MaxStarts(input.permit) then Block(StartsExhausted)
    else
      match StartBudget(input)
      case Refused(reason) => Block(reason)
      case Available(runtimeMs) =>
        Authorized(input, OpStart,
                   Decision(Starting, StartVm(input.journal.startCount + 1, input.nowMs + runtimeMs), StartNeeded))
  }

  function DecideRegister(input: Input, grant: Option<Grant>): Decision {
    if grant.None? then Block(NoGrant)
    else
      var cutoffMs := SafeCutoffMs(grant.value.deadlineMs, PermitExpiry(input.permit), input.config.timing);
      if input.nowMs > cutoffMs then Block(LifetimeTooShort)
      else Authorized(input, OpRegister, Decision(Ready, RegisterRunner(cutoffMs), JobFits))
  }

  function DecideDraining(input: Input, grant: Option<Grant>): Decision {
    if !GuestIsDrained(input) then
      if input.queue.eligibleQueuedJobs == 0 && grant.Some? && input.guest.status in {GuestReady, GuestDraining} then
        Authorized(input, OpRegister,
                   Decision(Draining, BeginDrain(DrainDeadlineMs(grant.value.deadlineMs, input.nowMs)), NotDrainedAgain))
      else Block(NotConclusivelyDrained)
    else if !IdleGraceSatisfied(input) then Decision(Draining, NoEffect, GraceNotEarned)
    else Authorized(input, OpStop, Decision(Stopping, StopVm(false), GraceEarned))
  }

  // ---- what each decision implies ----

  // A VM is only ever created against a complete observation that shows none.
  lemma CreateOnlyWhenAbsent(input: Input)
    requires DecideLifecycle(input).effect.CreateVm?
    ensures input.provider.complete && ProvenAbsent(input.provider)
    ensures input.queue.complete && input.queue.eligibleQueuedJobs > 0
    ensures PermitProblem(input.permit, input.identity, input.nowMs).None? && Permits(input.permit, OpCreate)
    ensures var effect := DecideLifecycle(input).effect;
            && effect.generation == effect.reservedStartCount == input.journal.startCount + 1 <= input.permit.value.maxStarts
            && effect.deadlineMs <= input.permit.value.expiresAtMs
            && effect.deadlineMs - input.nowMs <= input.permit.value.maxRuntimeMs - input.journal.cumulativeRuntimeMs
  {
  }

  // A start takes the next generation and a deadline that keeps runtime, lifetime and permit limits.
  lemma StartWithinBudget(input: Input)
    requires ParsedConfig(input.config) && DecideLifecycle(input).effect.StartVm?
    ensures var effect := DecideLifecycle(input).effect;
            && input.provider.complete && ExactlyOwned(input.provider) && input.provider.vmStatus == VmStopped
            && input.permit.Some?
            && effect.generation == input.journal.startCount + 1 <= input.permit.value.maxStarts
            && input.nowMs < effect.deadlineMs <= input.permit.value.expiresAtMs
            && input.config.timing.maxJobMs + input.config.timing.shutdownMarginMs <= effect.deadlineMs - input.nowMs
            && effect.deadlineMs - input.nowMs <= input.config.timing.lifetimeMs
            && effect.deadlineMs - input.nowMs <= input.permit.value.maxRuntimeMs - input.journal.cumulativeRuntimeMs
  {
  }

  // A graceful stop needs a drained guest of the journaled generation that has earned its grace.
  lemma GracefulStopEarned(input: Input)
    requires DecideLifecycle(input).effect == StopVm(false)
    ensures GuestIsDrained(input) && IdleGraceSatisfied(input)
    ensures input.journal.state == Draining && input.provider.vmStatus == VmRunning
    ensures input.guest.grant.value.generation == input.journal.startCount
    ensures !LifetimeOver(input) || input.journal.startCount <= 0
  {
  }

  // Work is resumed only on a drained guest of the journaled generation.
  lemma ResumeNeedsDrainedGuest(input: Input)
    requires DecideLifecycle(input).effect.ResumeAdmission?
    ensures input.queue.complete && input.guest.complete && input.queue.ownedBusy == Some(false)
    ensures input.guest.status == Drained && input.journal.state == Draining
    ensures input.guest.grant.Some? && input.guest.grant.value.generation == input.journal.startCount
  {
    var busy := input.queue.ownedBusy;
    assert busy.value ==> busy == Some(true);
    assert !busy.value ==> busy == Some(false);
  }

  // A drain is ordered only while the guest still admits work.
  lemma DrainNeedsWorkingGuest(input: Input)
    requires DecideLifecycle(input).effect.BeginDrain?
    ensures input.queue.complete && input.guest.complete && input.queue.ownedBusy == Some(false)
    ensures input.guest.status != Drained && input.provider.vmStatus == VmRunning && input.guest.grant.Some?
    ensures GuestUp(input.journal.state) ==> input.guest.grant.value.generation == input.journal.startCount
  {
    var busy := input.queue.ownedBusy;
    assert busy.value ==> busy == Some(true);
    assert !busy.value ==> busy == Some(false);
  }

  // ---- the observation window ----

  ghost predicate InTimeOrder(s: seq<IdleObservation>) {
    forall i, j :: 0 <= i < j < |s| ==> s[i].observedAtMs < s[j].observedAtMs
  }

  lemma {:induction false} OfGenerationConcat(a: seq<IdleObservation>, b: seq<IdleObservation>, generation: int, nowMs: int)
    ensures OfGeneration(a + b, generation, nowMs) == OfGeneration(a, generation, nowMs) + OfGeneration(b, generation, nowMs)
  {
    if b == [] {
      assert a + b == a;
    } else {
      assert (a + b)[..|a + b| - 1] == a + b[..|b| - 1];
      OfGenerationConcat(a, b[..|b| - 1], generation, nowMs);
    }
  }

  lemma {:induction false} OfGenerationOrdered(s: seq<IdleObservation>, generation: int, nowMs: int)
    requires InTimeOrder(s)
    ensures InTimeOrder(OfGeneration(s, generation, nowMs))
    ensures forall e :: e in OfGeneration(s, generation, nowMs) ==> e in s && e.generation == generation && e.observedAtMs <= nowMs
    ensures forall e :: e in s && e.generation == generation && e.observedAtMs <= nowMs ==> e in OfGeneration(s, generation, nowMs)
  {
    if s != [] {
      OfGenerationOrdered(s[..|s| - 1], generation, nowMs);
      assert s == s[..|s| - 1] + [s[|s| - 1]];
    }
  }

  lemma {:induction false} CompleteTailConcat(a: seq<IdleObservation>, b: seq<IdleObservation>)
    ensures CompleteTail(a + b) == (if exists e :: e in b && !e.complete then CompleteTail(b) else CompleteTail(a) + b)
  {
    if b == [] {
      assert a + b == a;
    } else {
      var init, last := b[..|b| - 1], b[|b| - 1];
      assert b == init + [last];
      assert (a + b)[..|a + b| - 1] == a + init;
      CompleteTailConcat(a, init);
      if exists e :: e in init && !e.complete {
        assert exists e :: e in b && !e.complete;
      }
    }
  }

  lemma {:induction false} CompleteTailIsSuffix(s: seq<IdleObservation>)
    ensures |CompleteTail(s)| <= |s|
    ensures CompleteTail(s) == s[|s| - |CompleteTail(s)|..]
    ensures forall e :: e in CompleteTail(s) ==> e.complete
  {
    if s != [] && s[|s| - 1].complete {
      CompleteTailIsSuffix(s[..|s| - 1]);
      assert s == s[..|s| - 1] + [s[|s| - 1]];
    }
  }

  lemma EvidenceInOrder(s: seq<IdleObservation>, generation: int, nowMs: int)
    requires InTimeOrder(s)
    ensures Evidence(s, generation, nowMs) == CompleteTail(OfGeneration(s, generation, nowMs))
  {
    OfGenerationOrdered(s, generation, nowMs);
    SortedUnchanged(OfGeneration(s, generation, nowMs), ObservedAt);
  }

  lemma TailOfWindow(a: seq<IdleObservation>, b: seq<IdleObservation>)
    requires |CompleteTail(b)| >= 2 && InTimeOrder(a + b)
    ensures var whole, part := CompleteTail(a + b), CompleteTail(b);
            && |whole| >= |part| && whole[|whole| - 1] == part[|part| - 1]
            && whole[0].observedAtMs <= part[0].observedAtMs
  {
    CompleteTailConcat(a, b);
    CompleteTailIsSuffix(b);
    if forall e :: e in b ==> e.complete {
      CompleteTailConcat([], b);
      assert [] + b == b;
      CompleteTailIsSuffix(a);
      var n := |CompleteTail(a)|;
      if n > 0 {
        assert CompleteTail(a)[0] == a[|a| - n] == (a + b)[|a| - n];
        assert b[0] == (a + b)[|a|];
      }
    }
  }

  // Keeping only the newest entries never grants grace the whole history would refuse.
  lemma WindowGrantsNoMore(dropped: seq<IdleObservation>, window: seq<IdleObservation>, generation: int,
                           queueAtMs: int, nowMs: int, timing: Timing)
    requires InTimeOrder(dropped + window)
    requires GraceOf(Evidence(window, generation, nowMs), queueAtMs, nowMs, timing)
    ensures GraceOf(Evidence(dropped + window, generation, nowMs), queueAtMs, nowMs, timing)
  {
    InTimeOrderSuffix(dropped, window);
    EvidenceInOrder(window, generation, nowMs);
    EvidenceInOrder(dropped + window, generation, nowMs);
    var a, b := OfGeneration(dropped, generation, nowMs), OfGeneration(window, generation, nowMs);
    OfGenerationConcat(dropped, window, generation, nowMs);
    assert InTimeOrder(a + b) by {
      OfGenerationOrdered(dropped + window, generation, nowMs);
    }
    TailOfWindow(a, b);
  }

  lemma InTimeOrderSuffix(a: seq<IdleObservation>, b: seq<IdleObservation>)
    requires InTimeOrder(a + b)
    ensures InTimeOrder(b)
  {
    forall i, j | 0 <= i < j < |b| ensures b[i].observedAtMs < b[j].observedAtMs {
      assert (a + b)[|a| + i] == b[i] && (a + b)[|a| + j] == b[j];
    }
  }

  // The evidence is the newest part of the generation's entries, all of it complete.
  lemma EvidenceShape(s: seq<IdleObservation>, generation: int, nowMs: int) returns (mine: seq<IdleObservation>)
    requires InTimeOrder(s)
    ensures InTimeOrder(mine)
    ensures forall e :: e in mine <==> e in s && e.generation == generation && e.observedAtMs <= nowMs
    ensures var evidence := Evidence(s, generation, nowMs);
            && |evidence| <= |mine| && evidence == mine[|mine| - |evidence|..]
            && forall e :: e in evidence ==> e.complete
  {
    mine := OfGeneration(s, generation, nowMs);
    EvidenceInOrder(s, generation, nowMs);
    OfGenerationOrdered(s, generation, nowMs);
    CompleteTailIsSuffix(mine);
  }

  // Grace exhibits two idle observations far enough apart with no interruption of the generation between them.
  lemma GraceWitness(s: seq<IdleObservation>, generation: int, queueAtMs: int, nowMs: int, timing: Timing)
    returns (first: nat, last: nat)
    requires InTimeOrder(s)
    requires GraceOf(Evidence(s, generation, nowMs), queueAtMs, nowMs, timing)
    ensures first < last < |s|
    ensures s[first].generation == s[last].generation == generation
    ensures s[last].observedAtMs == queueAtMs
    ensures s[last].observedAtMs - s[first].observedAtMs >= timing.idleGraceMs
    ensures forall k :: first <= k <= last && s[k].generation == generation ==> s[k].complete
    ensures forall k :: last < k < |s| && s[k].generation == generation ==> s[k].observedAtMs > nowMs
  {
    var mine := EvidenceShape(s, generation, nowMs);
    var evidence := Evidence(s, generation, nowMs);
    first, last := WitnessOf(s, mine, evidence);
    forall k | first <= k < |s| && s[k].generation == generation && s[k].observedAtMs <= nowMs
      ensures k <= last && s[k].complete
    {
      assert s[k] in mine;
      InEvidence(s, mine, |evidence|, first, last, k);
    }
  }

  // Where the first and the last of the evidence were recorded.
  lemma WitnessOf(s: seq<IdleObservation>, mine: seq<IdleObservation>, evidence: seq<IdleObservation>) returns (first: nat, last: nat)
    requires InTimeOrder(s) && InTimeOrder(mine) && forall e :: e in mine ==> e in s
    requires 2 <= |evidence| <= |mine| && evidence == mine[|mine| - |evidence|..]
    ensures first < last < |s| && s[first] == evidence[0] && s[last] == evidence[|evidence| - 1]
  {
    var n, m := |evidence|, |mine|;
    assert evidence[0] == mine[m - n] && evidence[n - 1] == mine[m - 1];
    first, last := IndexOf(s, mine[m - n]), IndexOf(s, mine[m - 1]);
    assert mine[m - n].observedAtMs < mine[m - 1].observedAtMs;
  }

  function IndexOf(s: seq<IdleObservation>, x: IdleObservation): (i: nat)
    requires x in s
    ensures i < |s| && s[i] == x
  {
    if s[0] == x then 0 else IndexOf(s[1..], x) + 1
  }

  // Whatever is no older than the first of the evidence is complete and no younger than its last.
  lemma InEvidence(s: seq<IdleObservation>, mine: seq<IdleObservation>, n: nat, first: nat, last: nat, k: nat)
    requires InTimeOrder(s) && InTimeOrder(mine) && 0 < n <= |mine| && first <= k < |s| && last < |s|
    requires s[first] == mine[|mine| - n] && s[last] == mine[|mine| - 1] && s[k] in mine
    requires forall e :: e in mine[|mine| - n..] ==> e.complete
    ensures k <= last && s[k].complete
  {
    var i :| 0 <= i < |mine| && mine[i] == s[k];
    assert s[first].observedAtMs <= s[k].observedAtMs;
    EvidencePlace(mine, n, i);
    assert mine[|mine| - n..][i - (|mine| - n)] == s[k];
  }

  // An entry no older than the first of the last n is one of them.
  lemma EvidencePlace(mine: seq<IdleObservation>, n: nat, i: nat)
    requires InTimeOrder(mine) && 0 < n <= |mine| && i < |mine|
    ensures mine[i].observedAtMs <= mine[|mine| - 1].observedAtMs
    ensures mine[i].observedAtMs >= mine[|mine| - n].observedAtMs ==> i >= |mine| - n
  {
  }
}
