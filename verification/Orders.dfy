/**
 When each order of the decision table is given: for every effect a flat condition on what is observed, what the
 journal says and what the permit allows, and the table orders the effect if and only if the condition holds. The
 conditions exclude one another, so the order in which the table asks does not matter.
 */
module Orders {
  import opened Contracts
  import opened Lifecycle

  // ---- authority ----

  predicate PermitHere(input: Input) {
    input.permit.Some? && input.permit.value.identity == input.identity && input.permit.value.issuedAtMs <= input.nowMs
  }

  // The permit is in force and allows the operation.
  predicate Allows(input: Input, operation: Operation) {
    PermitHere(input) && input.nowMs < input.permit.value.expiresAtMs && operation in input.permit.value.operations
  }

  // A stop at the end of the lifetime outlives the permit when the permit allows recovery.
  predicate AllowsRecoveryStop(input: Input) {
    PermitHere(input) && input.permit.value.recoveryAllowed && OpStop in input.permit.value.operations
  }

  predicate AllowsCleanup(input: Input) {
    && PermitHere(input) && OpDelete in input.permit.value.operations
    && (input.nowMs < input.permit.value.expiresAtMs || input.permit.value.recoveryAllowed)
  }

  // ---- what is seen ----

  // The queue was read no later than now and at most one poll ago.
  predicate FreshQueue(input: Input) {
    && input.queue.eligibleQueuedJobs >= 0
    && input.nowMs - input.config.timing.pollIntervalMs <= input.queue.observedAtMs <= input.nowMs
  }

  predicate TheOwnedVm(input: Input) { input.provider.ownership == Owned && input.provider.ownedMatches == 1 }

  predicate SpentLifetime(input: Input) {
    input.journal.grantDeadlineMs.Some? && input.journal.grantDeadlineMs.value <= input.nowMs
  }

  // One owned VM in this state, completely observed, with nothing outstanding and no job running on it.
  predicate IdleVm(input: Input, status: VmStatus) {
    && FreshQueue(input) && TheOwnedVm(input) && input.provider.vmStatus == status
    && input.provider.complete && input.queue.complete && input.guest.complete && input.queue.ownedBusy == Some(false)
    && input.guest.status !in {Failed, GuestUnknown, GuestBusy} && input.guest.workerActive != Some(true)
    && !input.provider.operationInFlight && input.journal.outstandingIntent.None?
  }

  // A running VM whose guest enforces the grant of the journaled generation, before the end of its lifetime.
  predicate IdleGuest(input: Input) {
    && IdleVm(input, VmRunning) && !(SpentLifetime(input) && input.journal.startCount > 0)
    && (input.guest.grant.Some? && GuestUp(input.journal.state) ==> input.guest.grant.value.generation == input.journal.startCount)
  }

  // The end of the generation: the guest's grant, or the journaled deadline when that is earlier.
  predicate EndsBy(input: Input, t: int) {
    || (input.guest.grant.Some? && input.guest.grant.value.deadlineMs <= t)
    || (input.journal.grantDeadlineMs.Some? && input.journal.grantDeadlineMs.value <= t)
  }

  function OneJobMs(input: Input): int { input.config.timing.maxJobMs + input.config.timing.shutdownMarginMs }

  // A whole job and its shutdown margin end by the grant, by the journaled deadline and by the permit.
  predicate JobStillFits(input: Input) {
    && input.guest.grant.Some? && input.nowMs + OneJobMs(input) <= input.guest.grant.value.deadlineMs
    && (input.journal.grantDeadlineMs.Some? ==> input.nowMs + OneJobMs(input) <= input.journal.grantDeadlineMs.value)
    && input.nowMs + OneJobMs(input) <= (if input.permit.Some? then input.permit.value.expiresAtMs else 0)
  }

  // ---- how far the table asks ----

  // One owned VM, completely observed and certain, with nothing outstanding, and not due for an emergency stop.
  predicate Settled(input: Input) {
    && FreshQueue(input) && TheOwnedVm(input) && input.provider.vmStatus !in {VmError, VmUnknown}
    && input.provider.complete && input.queue.complete && input.guest.complete && input.queue.ownedBusy.Some?
    && input.guest.status !in {Failed, GuestUnknown}
    && !input.provider.operationInFlight && input.journal.outstandingIntent.None?
    && !(SpentLifetime(input) && input.journal.startCount > 0 && input.provider.vmStatus !in {VmStopped, VmAbsent})
  }

  predicate OutsideOwned(effect: Effect) { effect.NoEffect? || effect.CreateVm? || effect.AdoptVm? || effect == StopVm(true) }

  lemma OwnedExactly(input: Input)
    ensures if Settled(input) then DecideLifecycle(input) == DecideOwned(input) else OutsideOwned(DecideLifecycle(input).effect)
  {
  }

  // No job is running, and the VM is where the journal believes it to be.
  predicate AtRest(input: Input) {
    && input.queue.ownedBusy != Some(true) && input.guest.workerActive != Some(true) && input.guest.status != GuestBusy
    && (GuestUp(input.journal.state) ==>
          && input.provider.vmStatus != VmStopped
          && (input.provider.vmStatus == VmRunning && input.guest.grant.Some? ==>
                input.guest.grant.value.generation == input.journal.startCount))
  }

  predicate SpentWhileUp(input: Input) {
    && input.queue.ownedBusy != Some(true) && input.guest.workerActive != Some(true) && input.guest.status != GuestBusy
    && input.provider.vmStatus == VmStopped && GuestUp(input.journal.state) && SpentLifetime(input) && input.journal.startCount >= 1
  }

  lemma RestExactly(input: Input)
    ensures AtRest(input) ==> DecideOwned(input) == DecideWork(input)
    ensures SpentWhileUp(input) ==>
              DecideOwned(input) == AuthorizedCleanup(input, Decision(Absent, DeleteVm(input.journal.startCount), LifetimeSpentWhileUp))
    ensures !AtRest(input) && !SpentWhileUp(input) ==> DecideOwned(input).effect.NoEffect?
  {
  }

  // What the table orders comes from the last part exactly when the VM is settled and at rest.
  lemma Route(input: Input)
    ensures Settled(input) && AtRest(input) ==> DecideLifecycle(input) == DecideWork(input)
    ensures !(Settled(input) && AtRest(input)) ==>
              OutsideOwned(DecideLifecycle(input).effect) || (Settled(input) && SpentWhileUp(input) && DecideLifecycle(input).effect.DeleteVm?)
  {
    OwnedExactly(input);
    RestExactly(input);
  }

  lemma NotBusy(busy: Option<bool>)
    ensures busy.Some? ==> (busy == Some(false) <==> busy != Some(true))
  {
    if busy.Some? {
      assert busy.value ==> busy == Some(true);
      assert !busy.value ==> busy == Some(false);
    }
  }

  lemma IdleRoutes(input: Input)
    ensures IdleGuest(input) <==> Settled(input) && AtRest(input) && input.provider.vmStatus == VmRunning
    ensures IdleVm(input, VmStopped) && !GuestUp(input.journal.state)
            <==> Settled(input) && AtRest(input) && input.provider.vmStatus == VmStopped
    ensures IdleVm(input, VmStopped) && GuestUp(input.journal.state) && SpentLifetime(input) && input.journal.startCount >= 1
            <==> Settled(input) && SpentWhileUp(input)
  {
    NotBusy(input.queue.ownedBusy);
  }

  lemma AuthorizedExactly(input: Input, operation: Operation, decision: Decision)
    requires !decision.effect.NoEffect? && (input.permit.Some? ==> ParsedPermit(input.permit.value))
    ensures Authorized(input, operation, decision) == decision <==> Allows(input, operation)
    ensures !Allows(input, operation) ==> Authorized(input, operation, decision).effect.NoEffect?
  {
  }

  lemma CleanupExactly(input: Input, decision: Decision)
    requires !decision.effect.NoEffect? && (input.permit.Some? ==> ParsedPermit(input.permit.value))
    ensures AuthorizedCleanup(input, decision) == decision <==> AllowsCleanup(input)
    ensures !AllowsCleanup(input) ==> AuthorizedCleanup(input, decision).effect.NoEffect?
  {
  }

  // ---- the running VM ----

  // An idle guest that still admits work, with none queued; or one whose earlier drain has not ended.
  predicate DrainDue(input: Input) {
    && IdleGuest(input) && input.guest.grant.Some? && input.queue.eligibleQueuedJobs == 0
    && (input.guest.status == GuestReady || (input.guest.status == GuestDraining && input.journal.state == Draining))
  }

  // The drain falls back at the end of the generation, or after ten minutes when that is earlier.
  ghost predicate DrainFallback(input: Input, d: int) {
    && d <= input.nowMs + 600_000 && (d == input.nowMs + 600_000 || EndsBy(input, d))
    && forall t :: t < d ==> !EndsBy(input, t)
  }

  lemma FallbackExactly(input: Input, d: int)
    requires input.guest.grant.Some?
    ensures DrainFallback(input, d) <==> d == DrainDeadlineMs(EffectiveGrant(input).value.deadlineMs, input.nowMs)
  {
    var ends := EffectiveGrant(input).value.deadlineMs;
    assert forall t :: EndsBy(input, t) <==> ends <= t;
    assert d > ends ==> EndsBy(input, d - 1);
  }

  lemma WorkDrains(input: Input, d: int)
    requires input.permit.Some? ==> ParsedPermit(input.permit.value)
    ensures DecideWork(input).effect == BeginDrain(d)
            <==> (&& input.provider.vmStatus == VmRunning && input.guest.grant.Some? && input.queue.eligibleQueuedJobs == 0
                  && (input.guest.status == GuestReady || (input.guest.status == GuestDraining && input.journal.state == Draining))
                  && Allows(input, OpRegister) && d == DrainDeadlineMs(EffectiveGrant(input).value.deadlineMs, input.nowMs))
    ensures DecideWork(input).effect.BeginDrain? ==> DecideWork(input).state == Draining
  {
  }

  lemma DrainExactly(input: Input, d: int)
    requires input.permit.Some? ==> ParsedPermit(input.permit.value)
    ensures DecideLifecycle(input).effect == BeginDrain(d)
            <==> DrainDue(input) && Allows(input, OpRegister) && DrainFallback(input, d)
    ensures DecideLifecycle(input).effect.BeginDrain? ==> DecideLifecycle(input).state == Draining
  {
    Route(input);
    IdleRoutes(input);
    WorkDrains(input, d);
    if input.guest.grant.Some? {
      FallbackExactly(input, d);
    }
  }

  // The last instant at which a job may be assigned.
  ghost predicate LastAssignment(input: Input, c: int) {
    forall t :: t <= c <==> JobStillFits(input.(nowMs := t))
  }

  predicate RegisterDue(input: Input) {
    IdleGuest(input) && input.guest.status == GuestReady && input.queue.eligibleQueuedJobs > 0 && JobStillFits(input)
  }

  // A grant, less one job, before the permit and the earlier deadline end.
  lemma FitsExactly(input: Input)
    ensures JobStillFits(input) <==>
              && EffectiveGrant(input).Some?
              && input.nowMs <= SafeCutoffMs(EffectiveGrant(input).value.deadlineMs, PermitExpiry(input.permit), input.config.timing)
  {
  }

  lemma LastExactly(input: Input, c: int)
    requires input.guest.grant.Some?
    ensures LastAssignment(input, c)
            <==> c == SafeCutoffMs(EffectiveGrant(input).value.deadlineMs, PermitExpiry(input.permit), input.config.timing)
  {
    var cutoff := SafeCutoffMs(EffectiveGrant(input).value.deadlineMs, PermitExpiry(input.permit), input.config.timing);
    forall t ensures JobStillFits(input.(nowMs := t)) <==> t <= cutoff {
      FitsExactly(input.(nowMs := t));
    }
    assert JobStillFits(input.(nowMs := c)) <==> c <= cutoff;
    assert JobStillFits(input.(nowMs := c + 1)) <==> c + 1 <= cutoff;
  }

  lemma RegisterDecides(input: Input, c: int)
    requires input.permit.Some? ==> ParsedPermit(input.permit.value)
    ensures DecideRegister(input, EffectiveGrant(input)).effect == RegisterRunner(c)
            <==> JobStillFits(input) && Allows(input, OpRegister) && LastAssignment(input, c)
    ensures DecideRegister(input, EffectiveGrant(input)).effect.RegisterRunner? ==>
              DecideRegister(input, EffectiveGrant(input)).state == Ready
    ensures var effect := DecideRegister(input, EffectiveGrant(input)).effect; effect.RegisterRunner? || effect.NoEffect?
  {
    FitsExactly(input);
    if input.guest.grant.Some? {
      LastExactly(input, c);
    }
  }

  // Registering is asked for a ready guest on a running VM with work queued, and nowhere else.
  lemma WorkAsksRegister(input: Input)
    ensures if input.provider.vmStatus == VmRunning && input.guest.status == GuestReady && input.queue.eligibleQueuedJobs > 0
            then DecideWork(input) == DecideRegister(input, EffectiveGrant(input))
            else !DecideWork(input).effect.RegisterRunner?
  {
  }

  lemma WorkRegisters(input: Input, c: int)
    requires input.permit.Some? ==> ParsedPermit(input.permit.value)
    ensures DecideWork(input).effect == RegisterRunner(c)
            <==> (&& input.provider.vmStatus == VmRunning && input.guest.status == GuestReady && input.queue.eligibleQueuedJobs > 0
                  && JobStillFits(input) && Allows(input, OpRegister) && LastAssignment(input, c))
    ensures DecideWork(input).effect.RegisterRunner? ==> DecideWork(input).state == Ready
  {
    RegisterDecides(input, c);
    WorkAsksRegister(input);
  }

  lemma RegisterExactly(input: Input, c: int)
    requires input.permit.Some? ==> ParsedPermit(input.permit.value)
    ensures DecideLifecycle(input).effect == RegisterRunner(c)
            <==> RegisterDue(input) && Allows(input, OpRegister) && LastAssignment(input, c)
    ensures DecideLifecycle(input).effect.RegisterRunner? ==> DecideLifecycle(input).state == Ready
  {
    Route(input);
    IdleRoutes(input);
    WorkRegisters(input, c);
  }

  // A drained guest to which work has come that still fits.
  predicate ResumeDue(input: Input) {
    && IdleGuest(input) && input.journal.state == Draining && input.guest.status == Drained
    && input.queue.eligibleQueuedJobs > 0 && JobStillFits(input)
  }

  lemma WorkResumes(input: Input)
    requires input.permit.Some? ==> ParsedPermit(input.permit.value)
    ensures DecideWork(input).effect.ResumeAdmission?
            <==> (&& input.provider.vmStatus == VmRunning && input.journal.state == Draining && input.guest.status == Drained
                  && input.queue.eligibleQueuedJobs > 0 && JobStillFits(input) && Allows(input, OpRegister))
    ensures DecideWork(input).effect.ResumeAdmission? ==> DecideWork(input).state == Ready
  {
    FitsExactly(input);
  }

  lemma ResumeExactly(input: Input)
    requires input.permit.Some? ==> ParsedPermit(input.permit.value)
    ensures DecideLifecycle(input).effect.ResumeAdmission? <==> ResumeDue(input) && Allows(input, OpRegister)
    ensures DecideLifecycle(input).effect.ResumeAdmission? ==> DecideLifecycle(input).state == Ready
  {
    Route(input);
    IdleRoutes(input);
    WorkResumes(input);
  }

  // Two idle observations of the guest's generation at least the grace apart, the later one this very reading of the
  // queue, and every observation of the generation from the one to the other idle, with none after it.
  ghost predicate GraceEarnedBetween(input: Input, first: nat, last: nat) {
    var all := input.journal.idleObservations;
    && first < last < |all| && input.guest.grant.Some?
    && var generation := input.guest.grant.value.generation;
       && all[first].generation == all[last].generation == generation
       && all[last].observedAtMs == input.queue.observedAtMs <= input.nowMs
       && input.nowMs - all[last].observedAtMs <= input.config.timing.pollIntervalMs
       && all[last].observedAtMs - all[first].observedAtMs >= input.config.timing.idleGraceMs
       && (forall k :: first <= k <= last && all[k].generation == generation ==> all[k].complete)
       && forall k :: last < k < |all| && all[k].generation == generation ==> all[k].observedAtMs > input.nowMs
  }

  // An entry of the generation stands before the tail exactly when the tail does not reach back to it.
  lemma {:induction false} TailReaches(s: seq<IdleObservation>, k: nat)
    requires k < |s| && forall i :: k <= i < |s| ==> s[i].complete
    ensures |CompleteTail(s)| >= |s| - k
    decreases |s|
  {
    if k < |s| - 1 {
      TailReaches(s[..|s| - 1], k);
    }
  }

  lemma {:induction false} PlaceOf(s: seq<IdleObservation>, generation: int, nowMs: int, k: nat) returns (i: nat)
    requires k < |s| && s[k].generation == generation && s[k].observedAtMs <= nowMs
    ensures i < |OfGeneration(s, generation, nowMs)| && OfGeneration(s, generation, nowMs)[i] == s[k]
  {
    if k == |s| - 1 {
      i := |OfGeneration(s, generation, nowMs)| - 1;
    } else {
      i := PlaceOf(s[..|s| - 1], generation, nowMs, k);
    }
  }

  // Such a pair earns the grace.
  lemma GraceFromPair(input: Input, first: nat, last: nat)
    requires InTimeOrder(input.journal.idleObservations) && input.config.timing.idleGraceMs > 0
    requires GraceEarnedBetween(input, first, last)
    ensures IdleGraceSatisfied(input)
  {
    var all, generation := input.journal.idleObservations, input.guest.grant.value.generation;
    var mine := OfGeneration(all, generation, input.nowMs);
    OfGenerationOrdered(all, generation, input.nowMs);
    EvidenceInOrder(all, generation, input.nowMs);
    var i := PlaceOf(all, generation, input.nowMs, first);
    var k := PlaceOf(all, generation, input.nowMs, last);
    forall m | i <= m < |mine| ensures mine[m].complete && m <= k {
      BetweenIsIdle(input, first, last, mine, i, k, m);
    }
    TailSpans(mine, i, k);
  }

  // The idle tail reaches from no later than the first of the pair to its last.
  lemma TailSpans(mine: seq<IdleObservation>, i: nat, k: nat)
    requires InTimeOrder(mine) && i < |mine| && k < |mine| && i != k && forall m :: i <= m < |mine| ==> mine[m].complete && m <= k
    ensures var tail := CompleteTail(mine);
            |tail| >= 2 && tail[|tail| - 1] == mine[k] && tail[0].observedAtMs <= mine[i].observedAtMs
  {
    TailReaches(mine, i);
    CompleteTailIsSuffix(mine);
    var tail := CompleteTail(mine);
    assert k == |mine| - 1;
    assert tail[|tail| - 1] == mine[|mine| - 1] && tail[0] == mine[|mine| - |tail|];
    assert mine[|mine| - |tail|].observedAtMs <= mine[i].observedAtMs;
  }

  lemma BetweenIsIdle(input: Input, first: nat, last: nat, mine: seq<IdleObservation>, i: nat, k: nat, m: nat)
    requires InTimeOrder(input.journal.idleObservations) && GraceEarnedBetween(input, first, last) && InTimeOrder(mine)
    requires var all := input.journal.idleObservations;
             && i <= m < |mine| && k < |mine| && mine[i] == all[first] && mine[k] == all[last]
             && mine[m] in all && mine[m].generation == input.guest.grant.value.generation && mine[m].observedAtMs <= input.nowMs
    ensures mine[m].complete && m <= k
  {
    var all := input.journal.idleObservations;
    var at :| 0 <= at < |all| && all[at] == mine[m];
    assert mine[i].observedAtMs <= mine[m].observedAtMs;
    assert forall k :: 0 <= k < first ==> all[k].observedAtMs < all[first].observedAtMs;
    assert at <= last;
    assert forall k :: 0 <= k < last ==> all[k].observedAtMs < all[last].observedAtMs;
  }

  lemma GraceExactly(input: Input)
    requires InTimeOrder(input.journal.idleObservations) && input.config.timing.idleGraceMs > 0
    ensures IdleGraceSatisfied(input) <==> exists first, last :: GraceEarnedBetween(input, first, last)
  {
    if IdleGraceSatisfied(input) {
      var all, generation := input.journal.idleObservations, input.guest.grant.value.generation;
      var first, last := GraceWitness(all, generation, input.queue.observedAtMs, input.nowMs, input.config.timing);
      LastIsPast(input, last);
      assert GraceEarnedBetween(input, first, last);
    }
    if first, last :| GraceEarnedBetween(input, first, last) {
      GraceFromPair(input, first, last);
    }
  }

  lemma LastIsPast(input: Input, last: nat)
    requires InTimeOrder(input.journal.idleObservations) && IdleGraceSatisfied(input)
    requires last < |input.journal.idleObservations| && input.journal.idleObservations[last].observedAtMs == input.queue.observedAtMs
    ensures input.queue.observedAtMs <= input.nowMs
  {
    var all, generation := input.journal.idleObservations, input.guest.grant.value.generation;
    EvidenceInOrder(all, generation, input.nowMs);
    OfGenerationOrdered(all, generation, input.nowMs);
    var mine := OfGeneration(all, generation, input.nowMs);
    CompleteTailIsSuffix(mine);
    assert mine[|mine| - 1] in mine;
  }

  // A drained guest with nothing active, no work that could still be resumed, and the grace earned.
  ghost predicate StopDue(input: Input) {
    && IdleGuest(input) && input.journal.state == Draining && input.guest.status == Drained
    && input.guest.admissionEnabled == Some(false) && input.guest.runnerActive == Some(false) && input.guest.workerActive == Some(false)
    && !(input.queue.eligibleQueuedJobs > 0 && JobStillFits(input))
    && exists first, last :: GraceEarnedBetween(input, first, last)
  }

  lemma DrainingDecides(input: Input)
    requires input.permit.Some? ==> ParsedPermit(input.permit.value)
    ensures var decision := DecideDraining(input, EffectiveGrant(input));
            && (decision.effect.StopVm? <==> GuestIsDrained(input) && IdleGraceSatisfied(input) && Allows(input, OpStop))
            && (decision.effect.StopVm? ==> decision == Decision(Stopping, StopVm(false), GraceEarned))
  {
  }

  // A stop is asked for on a draining running VM, unless work came that still fits or a ready guest could take it.
  lemma WorkAsksStop(input: Input)
    ensures var resumes := input.guest.status == Drained && input.queue.eligibleQueuedJobs > 0 && JobStillFits(input);
            var registers := input.guest.status == GuestReady && input.queue.eligibleQueuedJobs > 0;
            if input.provider.vmStatus == VmRunning && input.journal.state == Draining && !resumes && !registers
            then DecideWork(input) == DecideDraining(input, EffectiveGrant(input))
            else !DecideWork(input).effect.StopVm?
  {
    FitsExactly(input);
  }

  lemma WorkStops(input: Input)
    requires input.permit.Some? ==> ParsedPermit(input.permit.value)
    ensures DecideWork(input).effect.StopVm?
            <==> (&& input.provider.vmStatus == VmRunning && input.journal.state == Draining && GuestIsDrained(input)
                  && !(input.queue.eligibleQueuedJobs > 0 && JobStillFits(input)) && IdleGraceSatisfied(input) && Allows(input, OpStop))
    ensures DecideWork(input).effect.StopVm? ==> DecideWork(input) == Decision(Stopping, StopVm(false), GraceEarned)
  {
    DrainingDecides(input);
    WorkAsksStop(input);
  }

  lemma StopExactly(input: Input)
    requires input.permit.Some? ==> ParsedPermit(input.permit.value)
    requires InTimeOrder(input.journal.idleObservations) && input.config.timing.idleGraceMs > 0
    ensures DecideLifecycle(input).effect == StopVm(false) <==> StopDue(input) && Allows(input, OpStop)
    ensures DecideLifecycle(input).effect == StopVm(false) ==> DecideLifecycle(input).state == Stopping
  {
    GraceExactly(input);
    Route(input);
    IdleRoutes(input);
    WorkStops(input);
  }

  // ---- the end of the lifetime ----

  // Whatever else is observed or missing.
  predicate EmergencyDue(input: Input) {
    && TheOwnedVm(input) && input.provider.vmStatus !in {VmStopped, VmAbsent}
    && SpentLifetime(input) && input.journal.startCount > 0 && input.journal.outstandingIntent.None?
  }

  lemma OwnedNeverEmergency(input: Input)
    ensures DecideOwned(input).effect != StopVm(true)
  {
    RestExactly(input);
  }

  lemma EmergencyExactly(input: Input)
    requires input.permit.Some? ==> ParsedPermit(input.permit.value)
    ensures DecideLifecycle(input).effect == StopVm(true) <==> EmergencyDue(input) && AllowsRecoveryStop(input)
    ensures DecideLifecycle(input).effect == StopVm(true) ==> DecideLifecycle(input).state == Stopping
  {
    OwnedExactly(input);
    OwnedNeverEmergency(input);
  }

  // ---- the stopped VM ----

  // A VM that its guest stopped at the end of its lifetime, or one that is stopped, no longer wanted and to be deleted.
  predicate DeleteDue(input: Input, generation: int) {
    && IdleVm(input, VmStopped)
    && (|| (GuestUp(input.journal.state) && SpentLifetime(input) && generation == input.journal.startCount >= 1)
        || (&& input.queue.eligibleQueuedJobs == 0 && input.config.deleteAfterStop
            && (|| (input.journal.state == Stopping && generation == input.journal.startCount >= 1)
                || (&& input.journal.state == Stopped && input.journal.capacityWait.Some?
                    && generation >= 1 && generation >= input.journal.startCount
                    && (generation == 1 || generation == input.journal.startCount)))))
  }

  // A stopped VM is to be deleted when no work is queued and it was stopped for that, or is kept for a capacity wait.
  lemma WorkAsksDelete(input: Input)
    ensures var g := input.journal.startCount;
            if input.provider.vmStatus != VmStopped || input.queue.eligibleQueuedJobs != 0 || !input.config.deleteAfterStop then
              !DecideWork(input).effect.DeleteVm?
            else if input.journal.state == Stopping && g > 0 then
              DecideWork(input) == AuthorizedCleanup(input, Decision(Absent, DeleteVm(g), IdleStopped))
            else if input.journal.state == Stopped && input.journal.capacityWait.Some? then
              DecideWork(input) == AuthorizedCleanup(input, Decision(Absent, DeleteVm(Max(1, g)), IdleDuringCapacityWait))
            else !DecideWork(input).effect.DeleteVm?
  {
  }

  lemma WorkDeletes(input: Input, generation: int)
    requires input.permit.Some? ==> ParsedPermit(input.permit.value)
    ensures DecideWork(input).effect == DeleteVm(generation)
            <==> (&& input.provider.vmStatus == VmStopped && input.queue.eligibleQueuedJobs == 0 && input.config.deleteAfterStop
                  && AllowsCleanup(input)
                  && (|| (input.journal.state == Stopping && generation == input.journal.startCount >= 1)
                      || (&& input.journal.state == Stopped && input.journal.capacityWait.Some?
                          && generation == Max(1, input.journal.startCount))))
    ensures DecideWork(input).effect.DeleteVm? ==> DecideWork(input).state == Absent
  {
    var g := input.journal.startCount;
    WorkAsksDelete(input);
    CleanupExactly(input, Decision(Absent, DeleteVm(g), IdleStopped));
    CleanupExactly(input, Decision(Absent, DeleteVm(Max(1, g)), IdleDuringCapacityWait));
  }

  lemma DeleteExactly(input: Input, generation: int)
    requires input.permit.Some? ==> ParsedPermit(input.permit.value)
    ensures DecideLifecycle(input).effect == DeleteVm(generation) <==> DeleteDue(input, generation) && AllowsCleanup(input)
    ensures DecideLifecycle(input).effect.DeleteVm? ==> DecideLifecycle(input).state == Absent
  {
    OwnedExactly(input);
    RestExactly(input);
    IdleRoutes(input);
    WorkDeletes(input, generation);
    CleanupExactly(input, Decision(Absent, DeleteVm(input.journal.startCount), LifetimeSpentWhileUp));
  }

  // ---- starting ----

  // A whole job can still be paid for, within lifetime, runtime and permit: the grant lasts as long as all three allow.
  ghost predicate BudgetUntil(input: Input, deadlineMs: int) {
    && PermitHere(input) && input.journal.startCount < input.permit.value.maxStarts
    && input.journal.cumulativeRuntimeMs >= 0 && input.journal.cumulativeCostUsd >= 0.0
    && input.projectedStartCost.Finite? && 0.0 <= input.projectedStartCost.usd
    && input.journal.cumulativeCostUsd + input.projectedStartCost.usd <= input.permit.value.maxTotalCostUsd
    && deadlineMs >= input.nowMs + OneJobMs(input)
    && (forall t :: t <= deadlineMs <==> WithinBudget(input, t))
  }

  predicate WithinBudget(input: Input, t: int) {
    && input.permit.Some? && t <= input.permit.value.expiresAtMs && t <= input.nowMs + input.config.timing.lifetimeMs
    && input.journal.cumulativeRuntimeMs + (t - input.nowMs) <= input.permit.value.maxRuntimeMs
  }

  lemma BudgetExactly(input: Input, deadlineMs: int)
    requires ParsedConfig(input.config) && (input.permit.Some? ==> ParsedPermit(input.permit.value))
    ensures BudgetUntil(input, deadlineMs)
            <==> (&& StartBudget(input).Available? && input.journal.startCount < input.permit.value.maxStarts
                  && deadlineMs == input.nowMs + StartBudget(input).runtimeMs)
  {
    assert WithinBudget(input, deadlineMs) ==> WithinBudget(input, deadlineMs - 1);
    assert !WithinBudget(input, deadlineMs) ==> !BudgetUntil(input, deadlineMs);
    assert WithinBudget(input, deadlineMs + 1) ==> !BudgetUntil(input, deadlineMs);
  }

  // A capacity wait is still running.
  predicate Held(input: Input) { input.journal.capacityWait.Some? && input.nowMs < input.journal.capacityWait.value.retryAtMs }

  ghost predicate StartDue(input: Input, deadlineMs: int) {
    && IdleVm(input, VmStopped) && !GuestUp(input.journal.state) && input.queue.eligibleQueuedJobs > 0
    && !Held(input) && BudgetUntil(input, deadlineMs)
  }

  lemma StartDecides(input: Input, generation: int, deadlineMs: int)
    requires ParsedConfig(input.config) && (input.permit.Some? ==> ParsedPermit(input.permit.value))
    ensures DecideStart(input).effect == StartVm(generation, deadlineMs)
            <==> (&& !Held(input) && StartBudget(input).Available? && input.journal.startCount < input.permit.value.maxStarts
                  && deadlineMs == input.nowMs + StartBudget(input).runtimeMs
                  && generation == input.journal.startCount + 1 && Allows(input, OpStart))
    ensures DecideStart(input).effect.StartVm? ==> DecideStart(input).state == Starting
    ensures DecideStart(input).effect.StartVm? || DecideStart(input).effect.NoEffect?
  {
  }

  // Starting is asked for when work is queued for a stopped VM, and nowhere else.
  lemma WorkAsksStart(input: Input)
    ensures if input.provider.vmStatus == VmStopped && input.queue.eligibleQueuedJobs > 0 then DecideWork(input) == DecideStart(input)
            else !DecideWork(input).effect.StartVm?
  {
  }

  lemma WorkStarts(input: Input, generation: int, deadlineMs: int)
    requires ParsedConfig(input.config) && (input.permit.Some? ==> ParsedPermit(input.permit.value))
    ensures DecideWork(input).effect == StartVm(generation, deadlineMs)
            <==> (&& input.provider.vmStatus == VmStopped && input.queue.eligibleQueuedJobs > 0 && !Held(input)
                  && StartBudget(input).Available? && input.journal.startCount < input.permit.value.maxStarts
                  && deadlineMs == input.nowMs + StartBudget(input).runtimeMs
                  && generation == input.journal.startCount + 1 && Allows(input, OpStart))
    ensures DecideWork(input).effect.StartVm? ==> DecideWork(input).state == Starting
  {
    StartDecides(input, generation, deadlineMs);
    WorkAsksStart(input);
  }

  lemma StartExactly(input: Input, generation: int, deadlineMs: int)
    requires ParsedConfig(input.config) && (input.permit.Some? ==> ParsedPermit(input.permit.value))
    ensures DecideLifecycle(input).effect == StartVm(generation, deadlineMs)
            <==> StartDue(input, deadlineMs) && generation == input.journal.startCount + 1 && Allows(input, OpStart)
    ensures DecideLifecycle(input).effect.StartVm? ==> DecideLifecycle(input).state == Starting
  {
    Route(input);
    IdleRoutes(input);
    WorkStarts(input, generation, deadlineMs);
    BudgetExactly(input, deadlineMs);
  }

  // No VM, work queued, and no refused create to wait out.
  ghost predicate CreateDue(input: Input, deadlineMs: int) {
    && FreshQueue(input) && input.provider.complete && input.queue.complete && input.queue.eligibleQueuedJobs > 0
    && input.provider.vmStatus == VmAbsent && input.provider.ownership == OwnAbsent && input.provider.ownedMatches == 0
    && !(input.journal.outstandingIntent.Some? && input.journal.outstandingIntent.value.kind == CreateIntent)
    && !(Held(input) && input.journal.capacityWait.value.refusedEffect == CreateIntent)
    && BudgetUntil(input, deadlineMs)
  }

  lemma CreateDecides(input: Input, generation: int, reserved: int, deadlineMs: int)
    requires ParsedConfig(input.config) && (input.permit.Some? ==> ParsedPermit(input.permit.value))
    ensures DecideCreate(input).effect == CreateVm(generation, reserved, deadlineMs)
            <==> (&& input.provider.complete && input.queue.complete && input.queue.eligibleQueuedJobs != 0
                  && !(Held(input) && input.journal.capacityWait.value.refusedEffect == CreateIntent)
                  && BudgetUntil(input, deadlineMs)
                  && generation == reserved == input.journal.startCount + 1 && Allows(input, OpCreate))
    ensures DecideCreate(input).effect.CreateVm? ==> DecideCreate(input).state == Starting
  {
    BudgetExactly(input, deadlineMs);
  }

  lemma WorkNeverCreates(input: Input)
    ensures !DecideWork(input).effect.AdoptVm? && !DecideWork(input).effect.CreateVm?
  {
  }

  // Creating is asked for when no VM exists, and nowhere else.
  lemma CreateAsked(input: Input)
    ensures if && FreshQueue(input)
               && input.provider.vmStatus == VmAbsent && input.provider.ownership == OwnAbsent && input.provider.ownedMatches == 0
               && !(input.journal.outstandingIntent.Some? && input.journal.outstandingIntent.value.kind == CreateIntent)
            then DecideLifecycle(input) == DecideCreate(input)
            else !DecideLifecycle(input).effect.CreateVm?
  {
  }

  lemma CreateExactly(input: Input, generation: int, reserved: int, deadlineMs: int)
    requires ParsedConfig(input.config) && (input.permit.Some? ==> ParsedPermit(input.permit.value))
    ensures DecideLifecycle(input).effect == CreateVm(generation, reserved, deadlineMs)
            <==> CreateDue(input, deadlineMs) && generation == reserved == input.journal.startCount + 1 && Allows(input, OpCreate)
    ensures DecideLifecycle(input).effect.CreateVm? ==> DecideLifecycle(input).state == Starting
  {
    CreateAsked(input);
    CreateDecides(input, generation, reserved, deadlineMs);
  }
}
