/**
 Routing-switch decisions (packages/runner/src/routing.ts). `Assess` is a second, simpler form of the lifecycle's
 start budget: a runner is serviceable exactly when the decision table would create a VM for a queued job.
 */
module Routing {
  import opened Contracts
  import opened Lifecycle
  import opened Accounting

  // The cost one start may add; without an egress limit no start fits.
  function ProjectedStartCost(rates: Rates, diskSizeGiB: real, lifetimeMs: int, egressLimitGiB: Option<real>): Cost {
    if egressLimitGiB.None? || egressLimitGiB.value < 0.0 then Unbounded
    else
      var compute := lifetimeMs as real / HOUR_MS * rates.computeUsdPerHour;
      var disk := lifetimeMs as real / MONTH_MS * diskSizeGiB * rates.diskUsdPerGibMonth;
      Finite(compute + disk + egressLimitGiB.value * rates.networkEgressUsdPerGib)
  }

  datatype ServiceRefusal =
    | RepositoryNotPrivate | NoPermit | IdentityMismatch | OperationsMissing | NotActiveYet | Expired
    | StartsUsedUp | PastServiceEnd | RuntimeUsedUp | CostUsedUp

  datatype Assessment =
    | Serviceable(serviceEndMs: int)
    | Unserviceable(reason: ServiceRefusal, lastEndMs: Option<int>)

  // The identity fields a caller can know; the fleet cannot know the installed bundle digest.
  datatype KnownIdentity = KnownIdentity(
    configHash: Option<string>, candidateDigest: Option<string>, repositoryId: Option<int>,
    projectId: Option<string>, controllerId: Option<string>, resourcePrefix: Option<string>)

  predicate KnownMatches(known: KnownIdentity, id: Identity) {
    && (known.configHash.None? || known.configHash.value == id.configHash)
    && (known.candidateDigest.None? || known.candidateDigest.value == id.candidateDigest)
    && (known.repositoryId.None? || known.repositoryId.value == id.repositoryId)
    && (known.projectId.None? || known.projectId.value == id.projectId)
    && (known.controllerId.None? || known.controllerId.value == id.controllerId)
    && (known.resourcePrefix.None? || known.resourcePrefix.value == id.resourcePrefix)
  }

  function Fully(id: Identity): KnownIdentity {
    KnownIdentity(Some(id.configHash), Some(id.candidateDigest), Some(id.repositoryId),
                  Some(id.projectId), Some(id.controllerId), Some(id.resourcePrefix))
  }

  predicate Serves(permit: Permit) {
    OpCreate in permit.operations && OpStart in permit.operations && OpRegister in permit.operations
  }

  function ServiceEnd(permit: Permit, timing: Timing): int {
    permit.expiresAtMs - timing.maxJobMs - timing.shutdownMarginMs
  }

  predicate CostExceeds(spentUsd: real, projected: Cost, limitUsd: real) {
    projected.Unbounded? || spentUsd + projected.usd > limitUsd
  }

  function Assess(permit: Option<Permit>, nowMs: int, timing: Timing, known: KnownIdentity, startCount: int,
                  runtimeMs: int, costUsd: real, projected: Cost, repositoryPrivate: bool): Assessment
  {
    var end := if permit.None? then None else Some(ServiceEnd(permit.value, timing));
    if !repositoryPrivate then Unserviceable(RepositoryNotPrivate, end)
    else if permit.None? then Unserviceable(NoPermit, end)
    else
      var p := permit.value;
      if !KnownMatches(known, p.identity) then Unserviceable(IdentityMismatch, end)
      else if !Serves(p) then Unserviceable(OperationsMissing, end)
      else if p.issuedAtMs > nowMs then Unserviceable(NotActiveYet, end)
      else if p.expiresAtMs <= nowMs then Unserviceable(Expired, end)
      else if startCount >= p.maxStarts then Unserviceable(StartsUsedUp, end)
      else if p.maxRuntimeMs - runtimeMs < timing.maxJobMs + timing.shutdownMarginMs then Unserviceable(RuntimeUsedUp, end)
      else if CostExceeds(costUsd, projected, p.maxTotalCostUsd) then Unserviceable(CostUsedUp, end)
      else if nowMs > end.value then Unserviceable(PastServiceEnd, end)
      else Serviceable(end.value)
  }

  function AssessInput(input: Input, known: KnownIdentity, repositoryPrivate: bool): Assessment {
    Assess(input.permit, input.nowMs, input.config.timing, known, input.journal.startCount,
           input.journal.cumulativeRuntimeMs, input.journal.cumulativeCostUsd, input.projectedStartCost, repositoryPrivate)
  }

  // ---- parity with the decision table ----

  // What the parsers guarantee of the numbers both forms compare.
  predicate ParsedNumbers(input: Input) {
    && ParsedConfig(input.config) && (input.permit.Some? ==> ParsedPermit(input.permit.value))
    && input.journal.cumulativeRuntimeMs >= 0 && input.journal.cumulativeCostUsd >= 0.0
    && (input.projectedStartCost.Finite? ==> input.projectedStartCost.usd >= 0.0)
  }

  predicate FreshDemand(input: Input) {
    input.queue.complete && input.queue.eligibleQueuedJobs > 0 && QueueProblem(input).None?
  }

  // A queued job, no VM, nothing outstanding and no refused create to wait for.
  predicate DemandOnAbsentVm(input: Input) {
    && FreshDemand(input) && input.provider.complete && ProvenAbsent(input.provider)
    && input.journal.outstandingIntent.None?
    && !(CapacityHolds(input) && input.journal.capacityWait.value.refusedEffect == CreateIntent)
  }

  // A queued job and a settled stopped VM that the journal also believes stopped.
  predicate DemandOnStoppedVm(input: Input) {
    && FreshDemand(input) && input.provider.complete && ExactlyOwned(input.provider)
    && input.provider.vmStatus == VmStopped && !input.provider.operationInFlight
    && input.journal.outstandingIntent.None? && !GuestUp(input.journal.state) && !CapacityHolds(input)
    && input.guest.complete && input.guest.status !in {Failed, GuestUnknown, GuestBusy}
    && input.guest.workerActive != Some(true) && input.queue.ownedBusy == Some(false)
  }

  // With the whole identity known, serviceable means: the table creates for a queued job, and the permit can also
  // start and register what it created.
  lemma ServiceableExactlyWhenCreated(input: Input, repositoryPrivate: bool)
    requires ParsedNumbers(input) && DemandOnAbsentVm(input)
    ensures AssessInput(input, Fully(input.identity), repositoryPrivate).Serviceable?
            <==> (&& repositoryPrivate && DecideLifecycle(input).effect.CreateVm?
                  && Permits(input.permit, OpStart) && Permits(input.permit, OpRegister))
  {
    BudgetParity(input);
    if input.permit.Some? {
      assert KnownMatches(Fully(input.identity), input.permit.value.identity) <==> input.permit.value.identity == input.identity;
    }
  }

  // The two forms of the start budget.
  lemma BudgetParity(input: Input)
    requires ParsedNumbers(input)
    ensures StartBudget(input).Available?
            <==> (&& input.permit.Some?
                  && var p, oneJobMs := input.permit.value, input.config.timing.maxJobMs + input.config.timing.shutdownMarginMs;
                  && p.identity == input.identity && p.issuedAtMs <= input.nowMs
                  && p.maxRuntimeMs - input.journal.cumulativeRuntimeMs >= oneJobMs
                  && !CostExceeds(input.journal.cumulativeCostUsd, input.projectedStartCost, p.maxTotalCostUsd)
                  && input.nowMs <= ServiceEnd(p, input.config.timing))
  {
  }

  // The same holds of restarting a stopped VM, for a permit that can also create.
  lemma ServiceableExactlyWhenStarted(input: Input)
    requires ParsedNumbers(input) && DemandOnStoppedVm(input)
    requires Permits(input.permit, OpCreate) && Permits(input.permit, OpRegister)
    ensures AssessInput(input, Fully(input.identity), true).Serviceable? <==> DecideLifecycle(input).effect.StartVm?
  {
    BudgetParity(input);
    StoppedDecides(input);
    assert KnownMatches(Fully(input.identity), input.permit.value.identity) <==> input.permit.value.identity == input.identity;
  }

  // What a parsed configuration guarantees of its rates and its disk.
  predicate ParsedPricing(rates: Rates, diskSizeGiB: real) {
    0.0 <= rates.computeUsdPerHour && 0.0 <= rates.diskUsdPerGibMonth && 0.0 <= rates.networkEgressUsdPerGib && 0.0 < diskSizeGiB
  }

  lemma ProductNonNegative(x: real, y: real)
    requires 0.0 <= x && 0.0 <= y
    ensures 0.0 <= x * y
  {
  }

  lemma ProjectedNonNegative(rates: Rates, diskSizeGiB: real, lifetimeMs: int, egressLimitGiB: Option<real>)
    requires ParsedPricing(rates, diskSizeGiB) && 0 < lifetimeMs
    ensures var cost := ProjectedStartCost(rates, diskSizeGiB, lifetimeMs, egressLimitGiB);
            && (cost.Unbounded? <==> egressLimitGiB.None? || egressLimitGiB.value < 0.0)
            && (cost.Finite? ==> 0.0 <= cost.usd)
  {
    if egressLimitGiB.Some? && 0.0 <= egressLimitGiB.value {
      var hours, months := lifetimeMs as real / HOUR_MS, lifetimeMs as real / MONTH_MS;
      ProductNonNegative(hours, rates.computeUsdPerHour);
      ProductNonNegative(months, diskSizeGiB);
      ProductNonNegative(months * diskSizeGiB, rates.diskUsdPerGibMonth);
      ProductNonNegative(egressLimitGiB.value, rates.networkEgressUsdPerGib);
    }
  }

  // Priced from any parsed configuration the two forms agree, and without an egress limit neither lets a start through.
  lemma PricedServiceable(input: Input, rates: Rates, diskSizeGiB: real, egressLimitGiB: Option<real>)
    requires ParsedConfig(input.config) && ParsedPricing(rates, diskSizeGiB) && (input.permit.Some? ==> ParsedPermit(input.permit.value))
    requires input.journal.cumulativeRuntimeMs >= 0 && input.journal.cumulativeCostUsd >= 0.0 && DemandOnAbsentVm(input)
    requires input.projectedStartCost == ProjectedStartCost(rates, diskSizeGiB, input.config.timing.lifetimeMs, egressLimitGiB)
    ensures AssessInput(input, Fully(input.identity), true).Serviceable?
            <==> (DecideLifecycle(input).effect.CreateVm? && Permits(input.permit, OpStart) && Permits(input.permit, OpRegister))
    ensures egressLimitGiB.None? || egressLimitGiB.value < 0.0 ==>
              !AssessInput(input, Fully(input.identity), true).Serviceable? && DecideLifecycle(input).effect.NoEffect?
  {
    ProjectedNonNegative(rates, diskSizeGiB, input.config.timing.lifetimeMs, egressLimitGiB);
    ServiceableExactlyWhenCreated(input, true);
    BudgetParity(input);
  }

  lemma StoppedDecides(input: Input)
    requires DemandOnStoppedVm(input)
    ensures DecideLifecycle(input) == DecideStart(input)
  {
  }

  // A caller that knows only part of the identity finds the permit serviceable exactly when the controller the
  // permit names would create.
  lemma PartialIdentity(input: Input, known: KnownIdentity)
    requires ParsedNumbers(input) && DemandOnAbsentVm(input) && input.permit.Some? && Serves(input.permit.value)
    ensures AssessInput(input, known, true).Serviceable?
            <==> (&& KnownMatches(known, input.permit.value.identity)
                  && DecideLifecycle(input.(identity := input.permit.value.identity)).effect.CreateVm?)
  {
    ServiceableExactlyWhenCreated(input.(identity := input.permit.value.identity), true);
  }

  // The same situation seen at a later instant.
  function At(input: Input, t: int): Input {
    input.(nowMs := t, queue := input.queue.(observedAtMs := t))
  }

  // The reported end is the last instant at which a queued job still gets its VM.
  lemma ServiceEndIsLast(input: Input, t: int)
    requires ParsedNumbers(input) && DemandOnAbsentVm(input) && t >= input.nowMs
    requires AssessInput(input, Fully(input.identity), true).Serviceable?
    ensures DecideLifecycle(At(input, t)).effect.CreateVm? <==> t <= AssessInput(input, Fully(input.identity), true).serviceEndMs
  {
    ServiceableExactlyWhenCreated(input, true);
    BudgetParity(input);
    BudgetParity(At(input, t));
    ServiceableExactlyWhenCreated(At(input, t), true);
  }

  // ---- stranded runs ----

  datatype JobStatus = Completed | InProgress | Waiting

  // Any status but completed and in_progress is still waiting for a runner.
  datatype Job = Job(id: int, runId: int, runAttempt: int, status: JobStatus, labels: seq<string>)

  datatype Run = Run(id: int, runAttempt: int)

  predicate IsUnfinished(run: Run, job: Job) {
    job.runId == run.id && job.runAttempt == run.runAttempt && job.status != Completed
  }

  predicate IsStranded(run: Run, job: Job, runnerLabel: string) {
    IsUnfinished(run, job) && job.status != InProgress && runnerLabel in job.labels
  }

  function Unfinished(run: Run, jobs: seq<Job>): seq<Job> {
    if jobs == [] then []
    else if IsUnfinished(run, jobs[0]) then [jobs[0]] + Unfinished(run, jobs[1..])
    else Unfinished(run, jobs[1..])
  }

  function Stranded(run: Run, jobs: seq<Job>, runnerLabel: string): (r: seq<Job>)
    ensures forall j :: j in r <==> j in jobs && IsStranded(run, j, runnerLabel)
  {
    if jobs == [] then []
    else if IsStranded(run, jobs[0], runnerLabel) then [jobs[0]] + Stranded(run, jobs[1..], runnerLabel)
    else Stranded(run, jobs[1..], runnerLabel)
  }

  function Ids(jobs: seq<Job>): (r: seq<int>)
    ensures |r| == |jobs| && forall k :: 0 <= k < |r| ==> r[k] == jobs[k].id
  {
    if jobs == [] then [] else [jobs[0].id] + Ids(jobs[1..])
  }

  // Counting the stranded jobs decides whether they are all that is unfinished.
  lemma {:induction false} AllStrandedByCount(run: Run, jobs: seq<Job>, runnerLabel: string)
    ensures |Stranded(run, jobs, runnerLabel)| <= |Unfinished(run, jobs)|
    ensures |Stranded(run, jobs, runnerLabel)| == |Unfinished(run, jobs)|
            <==> forall k :: 0 <= k < |jobs| && IsUnfinished(run, jobs[k]) ==> IsStranded(run, jobs[k], runnerLabel)
  {
    if jobs != [] {
      AllStrandedByCount(run, jobs[1..], runnerLabel);
      assert forall k :: 0 <= k < |jobs[1..]| ==> jobs[1..][k] == jobs[k + 1];
      assert (forall k :: 0 <= k < |jobs| && IsUnfinished(run, jobs[k]) ==> IsStranded(run, jobs[k], runnerLabel))
             ==> forall k :: 0 <= k < |jobs[1..]| && IsUnfinished(run, jobs[1..][k]) ==> IsStranded(run, jobs[1..][k], runnerLabel);
    }
  }

  datatype Selection = Selection(
    cancellable: seq<int>, waiting: seq<int>, strandedJobs: seq<int>, strandedJobsByRun: map<int, seq<int>>)

  // Nothing of the run's current attempt is left unfinished but stranded jobs, and there is one.
  predicate OnlyStrandedLeft(run: Run, jobs: seq<Job>, runnerLabel: string) {
    && Stranded(run, jobs, runnerLabel) != []
    && forall j :: j in jobs && IsUnfinished(run, j) ==> IsStranded(run, j, runnerLabel)
  }

  function CancellableOf(runs: seq<Run>, jobs: seq<Job>, runnerLabel: string): seq<int> {
    if runs == [] then []
    else
      var run, before := runs[|runs| - 1], CancellableOf(runs[..|runs| - 1], jobs, runnerLabel);
      if OnlyStrandedLeft(run, jobs, runnerLabel) then before + [run.id] else before
  }

  function WaitingOf(runs: seq<Run>, jobs: seq<Job>, runnerLabel: string): seq<int> {
    if runs == [] then []
    else
      var run, before := runs[|runs| - 1], WaitingOf(runs[..|runs| - 1], jobs, runnerLabel);
      if Stranded(run, jobs, runnerLabel) != [] && !OnlyStrandedLeft(run, jobs, runnerLabel) then before + [run.id] else before
  }

  function StrandedOf(runs: seq<Run>, jobs: seq<Job>, runnerLabel: string): seq<int> {
    if runs == [] then []
    else StrandedOf(runs[..|runs| - 1], jobs, runnerLabel) + Ids(Stranded(runs[|runs| - 1], jobs, runnerLabel))
  }

  function ByRunOf(runs: seq<Run>, jobs: seq<Job>, runnerLabel: string): map<int, seq<int>> {
    if runs == [] then map[]
    else
      var run, before := runs[|runs| - 1], ByRunOf(runs[..|runs| - 1], jobs, runnerLabel);
      if Stranded(run, jobs, runnerLabel) == [] then before else before[run.id := Ids(Stranded(run, jobs, runnerLabel))]
  }

  method Select(runs: seq<Run>, jobs: seq<Job>, runnerLabel: string) returns (selection: Selection)
    ensures selection == Selection(CancellableOf(runs, jobs, runnerLabel), WaitingOf(runs, jobs, runnerLabel),
                                   StrandedOf(runs, jobs, runnerLabel), ByRunOf(runs, jobs, runnerLabel))
  {
    var cancellable, waiting, strandedJobs := [], [], [];
    var byRun: map<int, seq<int>> := map[];
    for n := 0 to |runs|
      invariant cancellable == CancellableOf(runs[..n], jobs, runnerLabel)
      invariant waiting == WaitingOf(runs[..n], jobs, runnerLabel)
      invariant strandedJobs == StrandedOf(runs[..n], jobs, runnerLabel)
      invariant byRun == ByRunOf(runs[..n], jobs, runnerLabel)
    {
      var run := runs[n];
      assert runs[..n + 1][..n] == runs[..n];
      var current, stranded := Unfinished(run, jobs), Stranded(run, jobs, runnerLabel);
      AllStrandedByCount(run, jobs, runnerLabel);
      if stranded != [] {
        strandedJobs := strandedJobs + Ids(stranded);
        byRun := byRun[run.id := Ids(stranded)];
        if |stranded| == |current| {
          cancellable := cancellable + [run.id];
        } else {
          waiting := waiting + [run.id];
        }
      }
    }
    assert runs[..|runs|] == runs;
    selection := Selection(cancellable, waiting, strandedJobs, byRun);
  }

  ghost predicate DistinctRuns(runs: seq<Run>) {
    forall i, k :: 0 <= i < k < |runs| ==> runs[i].id != runs[k].id
  }

  // A job of the run's current attempt that waits for a runner with the label.
  predicate Stuck(run: Run, job: Job, runnerLabel: string) {
    job.runId == run.id && job.runAttempt == run.runAttempt && job.status == Waiting && runnerLabel in job.labels
  }

  // Some job of the current attempt is stuck.
  ghost predicate SomeStuck(run: Run, jobs: seq<Job>, runnerLabel: string) { exists j :: j in jobs && Stuck(run, j, runnerLabel) }

  // A job of the current attempt runs, or waits for another runner.
  ghost predicate SomeElse(run: Run, jobs: seq<Job>, runnerLabel: string) {
    exists j :: j in jobs && j.runId == run.id && j.runAttempt == run.runAttempt
                && (j.status == InProgress || (j.status == Waiting && runnerLabel !in j.labels))
  }

  lemma StuckExactly(run: Run, jobs: seq<Job>, runnerLabel: string)
    ensures Stranded(run, jobs, runnerLabel) != [] <==> SomeStuck(run, jobs, runnerLabel)
    ensures OnlyStrandedLeft(run, jobs, runnerLabel) <==> SomeStuck(run, jobs, runnerLabel) && !SomeElse(run, jobs, runnerLabel)
  {
    var stranded := Stranded(run, jobs, runnerLabel);
    assert forall j :: j in jobs ==> (IsStranded(run, j, runnerLabel) <==> Stuck(run, j, runnerLabel));
    if stranded != [] {
      assert stranded[0] in stranded && Stuck(run, stranded[0], runnerLabel);
    }
  }

  // A run is cancellable exactly when stuck jobs are all it has left: cancelling it interrupts no other job.
  lemma CancellableExactly(runs: seq<Run>, jobs: seq<Job>, runnerLabel: string, id: int)
    ensures id in CancellableOf(runs, jobs, runnerLabel)
            <==> exists k :: 0 <= k < |runs| && runs[k].id == id
                             && SomeStuck(runs[k], jobs, runnerLabel) && !SomeElse(runs[k], jobs, runnerLabel)
  {
    CancellableRuns(runs, jobs, runnerLabel, id);
    forall k | 0 <= k < |runs|
      ensures OnlyStrandedLeft(runs[k], jobs, runnerLabel)
              <==> SomeStuck(runs[k], jobs, runnerLabel) && !SomeElse(runs[k], jobs, runnerLabel)
    {
      StuckExactly(runs[k], jobs, runnerLabel);
    }
  }

  lemma {:induction false} CancellableRuns(runs: seq<Run>, jobs: seq<Job>, runnerLabel: string, id: int)
    ensures id in CancellableOf(runs, jobs, runnerLabel)
            <==> exists k :: 0 <= k < |runs| && runs[k].id == id && OnlyStrandedLeft(runs[k], jobs, runnerLabel)
  {
    if runs != [] {
      var n := |runs| - 1;
      CancellableRuns(runs[..n], jobs, runnerLabel, id);
      assert forall k :: 0 <= k < n ==> runs[..n][k] == runs[k];
      if id in CancellableOf(runs[..n], jobs, runnerLabel) {
        var k :| 0 <= k < n && runs[..n][k].id == id && OnlyStrandedLeft(runs[..n][k], jobs, runnerLabel);
        assert runs[k].id == id && OnlyStrandedLeft(runs[k], jobs, runnerLabel);
      }
    }
  }

  // They are listed in the order of the runs.
  lemma {:induction false} CancellableInOrder(runs: seq<Run>, jobs: seq<Job>, runnerLabel: string) returns (places: seq<nat>)
    ensures var ids := CancellableOf(runs, jobs, runnerLabel);
            && |places| == |ids|
            && (forall k :: 0 <= k < |ids| ==> places[k] < |runs| && runs[places[k]].id == ids[k])
            && (forall i, k :: 0 <= i < k < |ids| ==> places[i] < places[k])
  {
    if runs == [] {
      places := [];
    } else {
      var n := |runs| - 1;
      places := CancellableInOrder(runs[..n], jobs, runnerLabel);
      if OnlyStrandedLeft(runs[n], jobs, runnerLabel) {
        places := places + [n];
      }
    }
  }

  // The other runs with stuck jobs wait for what runs, or waits, elsewhere.
  lemma WaitingExactly(runs: seq<Run>, jobs: seq<Job>, runnerLabel: string, id: int)
    ensures id in WaitingOf(runs, jobs, runnerLabel)
            <==> exists k :: 0 <= k < |runs| && runs[k].id == id
                             && SomeStuck(runs[k], jobs, runnerLabel) && SomeElse(runs[k], jobs, runnerLabel)
  {
    WaitingRuns(runs, jobs, runnerLabel, id);
    forall k | 0 <= k < |runs|
      ensures Stranded(runs[k], jobs, runnerLabel) != [] && !OnlyStrandedLeft(runs[k], jobs, runnerLabel)
              <==> SomeStuck(runs[k], jobs, runnerLabel) && SomeElse(runs[k], jobs, runnerLabel)
    {
      StuckExactly(runs[k], jobs, runnerLabel);
    }
  }

  // A job with this id is stuck in the run.
  ghost predicate StuckAs(run: Run, jobs: seq<Job>, runnerLabel: string, id: int) {
    exists j :: j in jobs && j.id == id && Stuck(run, j, runnerLabel)
  }

  ghost predicate StuckSomewhere(runs: seq<Run>, jobs: seq<Job>, runnerLabel: string, id: int) {
    exists k :: 0 <= k < |runs| && StuckAs(runs[k], jobs, runnerLabel, id)
  }

  lemma StuckBefore(runs: seq<Run>, jobs: seq<Job>, runnerLabel: string, id: int)
    requires runs != []
    ensures StuckSomewhere(runs, jobs, runnerLabel, id)
            <==> StuckSomewhere(runs[..|runs| - 1], jobs, runnerLabel, id) || StuckAs(runs[|runs| - 1], jobs, runnerLabel, id)
  {
    var before := runs[..|runs| - 1];
    if k :| 0 <= k < |before| && StuckAs(before[k], jobs, runnerLabel, id) {
      assert StuckAs(runs[k], jobs, runnerLabel, id);
    }
    if k :| 0 <= k < |runs| && StuckAs(runs[k], jobs, runnerLabel, id) {
      assert k < |before| ==> before[k] == runs[k];
    }
  }

  // The list of all stranded jobs holds exactly the stuck jobs of the runs.
  lemma {:induction false} StrandedExactly(runs: seq<Run>, jobs: seq<Job>, runnerLabel: string, id: int)
    ensures id in StrandedOf(runs, jobs, runnerLabel) <==> StuckSomewhere(runs, jobs, runnerLabel, id)
  {
    if runs != [] {
      StrandedExactly(runs[..|runs| - 1], jobs, runnerLabel, id);
      StuckBefore(runs, jobs, runnerLabel, id);
      StuckIds(runs[|runs| - 1], jobs, runnerLabel, id);
    }
  }

  lemma StuckIds(run: Run, jobs: seq<Job>, runnerLabel: string, id: int)
    ensures id in Ids(Stranded(run, jobs, runnerLabel)) <==> StuckAs(run, jobs, runnerLabel, id)
  {
    var stranded := Stranded(run, jobs, runnerLabel);
    assert forall j :: j in jobs ==> (IsStranded(run, j, runnerLabel) <==> Stuck(run, j, runnerLabel));
    if id in Ids(stranded) {
      var k :| 0 <= k < |stranded| && Ids(stranded)[k] == id;
      assert stranded[k] in stranded;
    }
    if j :| j in jobs && j.id == id && Stuck(run, j, runnerLabel) {
      var k :| 0 <= k < |stranded| && stranded[k] == j;
      assert Ids(stranded)[k] == id;
    }
  }

  lemma {:induction false} WaitingRuns(runs: seq<Run>, jobs: seq<Job>, runnerLabel: string, id: int)
    ensures id in WaitingOf(runs, jobs, runnerLabel)
            <==> exists k :: 0 <= k < |runs| && runs[k].id == id && Stranded(runs[k], jobs, runnerLabel) != []
                             && !OnlyStrandedLeft(runs[k], jobs, runnerLabel)
  {
    if runs != [] {
      var n := |runs| - 1;
      WaitingRuns(runs[..n], jobs, runnerLabel, id);
      assert forall k :: 0 <= k < n ==> runs[..n][k] == runs[k];
      if id in WaitingOf(runs[..n], jobs, runnerLabel) {
        var k :| 0 <= k < n && runs[..n][k].id == id && Stranded(runs[..n][k], jobs, runnerLabel) != []
                 && !OnlyStrandedLeft(runs[..n][k], jobs, runnerLabel);
        assert runs[k].id == id && Stranded(runs[k], jobs, runnerLabel) != [] && !OnlyStrandedLeft(runs[k], jobs, runnerLabel);
      }
    }
  }

  lemma {:induction false} ByRunExactly(runs: seq<Run>, jobs: seq<Job>, runnerLabel: string, run: Run)
    requires DistinctRuns(runs) && run in runs
    ensures run.id in ByRunOf(runs, jobs, runnerLabel) <==> Stranded(run, jobs, runnerLabel) != []
    ensures run.id in ByRunOf(runs, jobs, runnerLabel) ==> ByRunOf(runs, jobs, runnerLabel)[run.id] == Ids(Stranded(run, jobs, runnerLabel))
  {
    var before, last := runs[..|runs| - 1], runs[|runs| - 1];
    assert runs == before + [last];
    if run == last {
      ByRunKeys(before, jobs, runnerLabel, run.id);
      assert forall k :: 0 <= k < |before| ==> before[k] == runs[k] && runs[k].id != runs[|runs| - 1].id;
    } else {
      ByRunExactly(before, jobs, runnerLabel, run);
      var i :| 0 <= i < |before| && before[i] == run;
      assert runs[i].id != runs[|runs| - 1].id;
    }
  }

  lemma {:induction false} ByRunKeys(runs: seq<Run>, jobs: seq<Job>, runnerLabel: string, id: int)
    ensures id in ByRunOf(runs, jobs, runnerLabel)
            <==> exists k :: 0 <= k < |runs| && runs[k].id == id && Stranded(runs[k], jobs, runnerLabel) != []
  {
    if runs != [] {
      var before, last := runs[..|runs| - 1], runs[|runs| - 1];
      ByRunKeys(before, jobs, runnerLabel, id);
      assert forall k :: 0 <= k < |before| ==> runs[k] == before[k];
      if id in ByRunOf(before, jobs, runnerLabel) {
        var k :| 0 <= k < |before| && before[k].id == id && Stranded(before[k], jobs, runnerLabel) != [];
        assert runs[k] == before[k];
      }
    }
  }

  predicate IsStrandedJob(job: Job, runId: int, jobId: int, runnerLabel: string) {
    job.id == jobId && job.runId == runId && job.status == Waiting && runnerLabel in job.labels
  }

  lemma ListedJob(run: Run, jobs: seq<Job>, runnerLabel: string, jobId: int)
    requires jobId in Ids(Stranded(run, jobs, runnerLabel))
    ensures exists j :: j in jobs && IsStrandedJob(j, run.id, jobId, runnerLabel)
  {
    var mine := Stranded(run, jobs, runnerLabel);
    var k :| 0 <= k < |mine| && Ids(mine)[k] == jobId;
    assert mine[k] in jobs && IsStrandedJob(mine[k], run.id, jobId, runnerLabel);
  }

  // Every cancellable run lists at least one stranded job to re-run, only jobs of its own, and none of its jobs runs.
  lemma CancellableHasJobs(runs: seq<Run>, jobs: seq<Job>, runnerLabel: string, id: int)
    requires DistinctRuns(runs) && id in CancellableOf(runs, jobs, runnerLabel)
    ensures id in ByRunOf(runs, jobs, runnerLabel) && ByRunOf(runs, jobs, runnerLabel)[id] != []
    ensures forall jobId :: jobId in ByRunOf(runs, jobs, runnerLabel)[id] ==>
              exists j :: j in jobs && IsStrandedJob(j, id, jobId, runnerLabel)
    ensures exists k :: 0 <= k < |runs| && runs[k].id == id
                        && forall j :: j in jobs && IsUnfinished(runs[k], j) ==> j.status != InProgress
  {
    CancellableRuns(runs, jobs, runnerLabel, id);
    var k :| 0 <= k < |runs| && runs[k].id == id && OnlyStrandedLeft(runs[k], jobs, runnerLabel);
    ByRunExactly(runs, jobs, runnerLabel, runs[k]);
    forall jobId | jobId in Ids(Stranded(runs[k], jobs, runnerLabel))
      ensures exists j :: j in jobs && IsStrandedJob(j, id, jobId, runnerLabel)
    {
      ListedJob(runs[k], jobs, runnerLabel, jobId);
    }
    assert forall j :: j in jobs && IsUnfinished(runs[k], j) ==> IsStranded(runs[k], j, runnerLabel);
  }

  // ---- release checks ----

  const RELEASE_CHECK_INTERVAL_MS := 600_000

  datatype Claim = Claim(atMs: int, reason: ServiceRefusal)

  // Two claims for one reason, with no other reason claimed between them.
  predicate OneReason(claims: seq<Claim>, i: nat, k: nat)
    requires k < |claims|
  {
    forall m :: i <= m <= k ==> claims[m].reason == claims[k].reason
  }

  // Each claim comes for a new reason, or ten minutes after the one before it.
  predicate Spaced(claims: seq<Claim>) {
    forall k :: 0 < k < |claims| ==>
      claims[k].reason != claims[k - 1].reason || claims[k].atMs - claims[k - 1].atMs >= RELEASE_CHECK_INTERVAL_MS
  }

  // Any two claims for one reason, with no other reason claimed between them, are at least ten minutes apart.
  lemma {:induction false} ClaimsApart(claims: seq<Claim>, i: nat, k: nat)
    requires Spaced(claims) && i < k < |claims| && OneReason(claims, i, k)
    ensures claims[k].atMs - claims[i].atMs >= RELEASE_CHECK_INTERVAL_MS * (k - i)
  {
    if i + 1 < k {
      ClaimsApart(claims, i, k - 1);
    }
  }

  // Per-process release-check state of one controller.
  class ReleaseCheck {
    var last: Option<Claim>
    // Every claim this process has made.
    ghost var claims: seq<Claim>

    ghost predicate Valid()
      reads this
    {
      Spaced(claims) && last == if claims == [] then None else Some(claims[|claims| - 1])
    }

    constructor ()
      ensures Valid() && claims == []
    {
      last, claims := None, [];
    }

    // At once for a new reason, and then at most every ten minutes; what is not due follows such a claim too closely.
    method ClaimCheck(reason: ServiceRefusal, nowMs: int) returns (due: bool)
      requires Valid()
      modifies this
      ensures Valid() && claims == if due then old(claims) + [Claim(nowMs, reason)] else old(claims)
      ensures due <==> Spaced(old(claims) + [Claim(nowMs, reason)])
    {
      due := last.None? || last.value.reason != reason || nowMs - last.value.atMs >= RELEASE_CHECK_INTERVAL_MS;
      ghost var next := claims + [Claim(nowMs, reason)];
      assert forall k :: 0 <= k < |claims| ==> next[k] == claims[k];
      assert next[|claims|] == Claim(nowMs, reason);
      if due {
        last := Some(Claim(nowMs, reason));
        claims := next;
      }
    }
  }
}
