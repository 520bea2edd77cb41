/**
 The accounting step that turns a provider, guest and queue reading into the next observed journal
 (packages/cli/src/runner-service.ts, advanceObservedLifecycle and observe).
 */
module Accounting {
  import opened Contracts
  import opened Controller

  const HOUR_MS := 3_600_000.0
  const MONTH_MS := 30.0 * 24.0 * 3_600_000.0
  const GIB := 1_073_741_824.0
  // Number.EPSILON
  const EPSILON := 1.0 / 4_503_599_627_370_496.0

  datatype Rates = Rates(computeUsdPerHour: real, diskUsdPerGibMonth: real, networkEgressUsdPerGib: real)

  datatype Ledger = Ledger(
    diskStartedAtMs: Option<int>, diskRetainedMs: int, runtimeBaselineMs: int, generation: Option<int>,
    networkEgressBytes: int, networkBaselineBytes: Option<int>, networkGenerationStartBytes: Option<int>)

  // One reading of the world, before the journal is consulted.
  datatype Look = Look(
    nowMs: int, config: Config, identity: Identity, permit: Option<Permit>, provider: Provider, queue: Queue,
    guest: Guest, guestEgressBytes: Option<int>, projectedStartCost: Cost, rates: Rates, diskSizeGiB: real)

  function RoundMoney(value: real): real {
    ((value + EPSILON) * 1_000_000.0 + 0.5).Floor as real / 1_000_000.0
  }

  predicate ProviderUp(provider: Provider) {
    provider.ownership == Owned && provider.vmStatus !in {VmAbsent, VmStopped}
  }

  function AdvanceDisk(ledger: Ledger, present: bool, nowMs: int): Ledger {
    var started := if present && ledger.diskStartedAtMs.None? then Some(nowMs) else ledger.diskStartedAtMs;
    if started.None? then ledger
    else ledger.(diskRetainedMs := ledger.diskRetainedMs + Max(0, nowMs - started.value),
                 diskStartedAtMs := if present then Some(nowMs) else None)
  }

  function AdvanceGeneration(ledger: Ledger, journal: Journal, look: Look): Ledger {
    if !ProviderUp(look.provider) || journal.startCount <= 0 || ledger.generation == Some(journal.startCount) then ledger
    else
      var first := ledger.generation.None? && ledger.networkEgressBytes == 0;
      ledger.(generation := Some(journal.startCount), runtimeBaselineMs := journal.cumulativeRuntimeMs,
              networkBaselineBytes := Some(ledger.networkEgressBytes),
              networkGenerationStartBytes := Some(if first then 0 else look.guestEgressBytes.GetOr(0)))
  }

  // When the current generation started: journaled, else bounded by its deadline, else unknown.
  function StartedAt(journal: Journal, lifetimeMs: int): Option<int> {
    if journal.grantStartedAtMs.Some? then journal.grantStartedAtMs
    else if journal.grantDeadlineMs.Some? then Some(journal.grantDeadlineMs.value - lifetimeMs)
    else None
  }

  function AdvanceRuntime(ledger: Ledger, journal: Journal, look: Look): int {
    if ProviderUp(look.provider) && journal.startCount > 0 && ledger.generation == Some(journal.startCount) then
      var lifetimeMs := look.config.timing.lifetimeMs;
      var started := StartedAt(journal, lifetimeMs);
      Max(journal.cumulativeRuntimeMs,
          ledger.runtimeBaselineMs + if started.None? then lifetimeMs else Max(0, look.nowMs - started.value))
    else journal.cumulativeRuntimeMs
  }

  function AdvanceNetwork(ledger: Ledger, look: Look): Ledger {
    if look.guestEgressBytes.None? then ledger
    else
      var generationBytes := Max(0, look.guestEgressBytes.value - ledger.networkGenerationStartBytes.GetOr(0));
      ledger.(networkEgressBytes := Max(ledger.networkEgressBytes, ledger.networkBaselineBytes.GetOr(0) + generationBytes))
  }

  function CostOf(runtimeMs: int, ledger: Ledger, look: Look): real {
    RoundMoney(runtimeMs as real / HOUR_MS * look.rates.computeUsdPerHour
               + ledger.diskRetainedMs as real / MONTH_MS * look.diskSizeGiB * look.rates.diskUsdPerGibMonth
               + ledger.networkEgressBytes as real / GIB * look.rates.networkEgressUsdPerGib)
  }

  predicate CurrentGeneration(journal: Journal, queue: Queue, guest: Guest) {
    && queue.complete && queue.ownedBusy.Some? && guest.complete
    && guest.grant.Some? && guest.grant.value.generation == journal.startCount
  }

  // The idle observations after a reading: at most one new entry, idle or interrupting.
  function AdvanceIdle(journal: Journal, queue: Queue, guest: Guest, nowMs: int): seq<IdleObservation> {
    var past := journal.idleObservations;
    var current := CurrentGeneration(journal, queue, guest);
    var idle := current && queue.ownedBusy == Some(false) && guest.status == Drained;
    var interrupted := current && !idle && |past| > 0
                       && past[|past| - 1].generation == journal.startCount && past[|past| - 1].complete;
    if (idle || interrupted) && (|past| == 0 || past[|past| - 1].observedAtMs != nowMs) then
      past + [IdleObservation(nowMs, idle, journal.startCount)]
    else past
  }

  function Advance(journal: Journal, ledger: Ledger, look: Look): (r: (Journal, Ledger)) {
    var disked := AdvanceDisk(ledger, look.provider.ownership == Owned, look.nowMs);
    var armed := AdvanceGeneration(disked, journal, look);
    var runtimeMs := AdvanceRuntime(armed, journal, look);
    var counted := AdvanceNetwork(armed, look);
    var cost := CostOf(runtimeMs, counted, look);
    (journal.(cumulativeRuntimeMs := runtimeMs,
              cumulativeCostUsd := if cost > journal.cumulativeCostUsd then cost else journal.cumulativeCostUsd,
              idleObservations := AdvanceIdle(journal, look.queue, look.guest, look.nowMs)),
     counted)
  }

  // advanceObservedLifecycle: one accounting copy whose fields are assigned in turn.
  method AdvanceObservedLifecycle(journal: Journal, ledger: Ledger, look: Look) returns (lifecycle: Journal, accounting: Ledger)
    ensures (lifecycle, accounting) == Advance(journal, ledger, look)
  {
    accounting := ledger;
    var present, up := look.provider.ownership == Owned, ProviderUp(look.provider);
    if present && accounting.diskStartedAtMs.None? {
      accounting := accounting.(diskStartedAtMs := Some(look.nowMs));
    }
    if accounting.diskStartedAtMs.Some? {
      accounting := accounting.(diskRetainedMs := accounting.diskRetainedMs + Max(0, look.nowMs - accounting.diskStartedAtMs.value));
      accounting := accounting.(diskStartedAtMs := if present then Some(look.nowMs) else None);
    }
    var generation := journal.startCount;
    if up && generation > 0 && accounting.generation != Some(generation) {
      var firstObservedGeneration := accounting.generation.None? && accounting.networkEgressBytes == 0;
      accounting := accounting.(generation := Some(generation));
      accounting := accounting.(runtimeBaselineMs := journal.cumulativeRuntimeMs);
      accounting := accounting.(networkBaselineBytes := Some(accounting.networkEgressBytes));
      accounting := accounting.(networkGenerationStartBytes :=
        Some(if firstObservedGeneration then 0 else look.guestEgressBytes.GetOr(0)));
    }
    var startedAtMs := StartedAt(journal, look.config.timing.lifetimeMs);
    var runtimeMs := journal.cumulativeRuntimeMs;
    if up && generation > 0 && accounting.generation == Some(generation) {
      runtimeMs := Max(runtimeMs, accounting.runtimeBaselineMs
        + if startedAtMs.None? then look.config.timing.lifetimeMs else Max(0, look.nowMs - startedAtMs.value));
    }
    if look.guestEgressBytes.Some? {
      var generationBytes := Max(0, look.guestEgressBytes.value - accounting.networkGenerationStartBytes.GetOr(0));
      accounting := accounting.(networkEgressBytes :=
        Max(accounting.networkEgressBytes, accounting.networkBaselineBytes.GetOr(0) + generationBytes));
    }
    var cost := CostOf(runtimeMs, accounting, look);
    lifecycle := journal.(cumulativeRuntimeMs := runtimeMs);
    if cost > journal.cumulativeCostUsd {
      lifecycle := lifecycle.(cumulativeCostUsd := cost);
    }
    lifecycle := lifecycle.(idleObservations := AdvanceIdle(journal, look.queue, look.guest, look.nowMs));
  }

  // ---- what one reading may change ----

  // Disk time, network bytes, runtime and cost never go back, whatever generation is seen.
  lemma AdvanceOnlyGrows(journal: Journal, ledger: Ledger, look: Look)
    ensures var (after, counted) := Advance(journal, ledger, look);
            && RegressionFree(journal, after)
            && counted.diskRetainedMs >= ledger.diskRetainedMs
            && counted.networkEgressBytes >= ledger.networkEgressBytes
            && after == journal.(cumulativeRuntimeMs := after.cumulativeRuntimeMs,
                                 cumulativeCostUsd := after.cumulativeCostUsd,
                                 idleObservations := after.idleObservations)
  {
  }

  // A runtime increase is charged once: the baseline of the generation plus the time since its start.
  lemma RuntimeCharge(journal: Journal, ledger: Ledger, look: Look)
    requires ledger.runtimeBaselineMs <= journal.cumulativeRuntimeMs
    requires journal.grantStartedAtMs.Some?
    ensures var (after, counted) := Advance(journal, ledger, look);
            && counted.runtimeBaselineMs <= after.cumulativeRuntimeMs
            && (after.cumulativeRuntimeMs > journal.cumulativeRuntimeMs ==>
                  && ProviderUp(look.provider) && counted.generation == Some(journal.startCount)
                  && after.cumulativeRuntimeMs == counted.runtimeBaselineMs + (look.nowMs - journal.grantStartedAtMs.value))
  {
  }

  // ---- observe ----

  function FreshJournal(provider: Provider): Journal {
    Journal(if provider.vmStatus == VmAbsent then Absent else if provider.vmStatus == VmStopped then Stopped else Blocked,
            0, 0, 0.0, None, [], None, None, None)
  }

  // The persisted ledger; None when an owned VM has no durable accounting baseline.
  function ReadLedger(ledger: Option<Ledger>, prior: Option<State>, look: Look): Option<Ledger> {
    if ledger.Some? then ledger
    else if look.provider.ownership == Owned && prior.None? then None
    else
      var createdAtMs := if prior.Some? && prior.value.pendingEffect.Some? && prior.value.pendingEffect.value.effect.CreateVm?
                         then prior.value.pendingEffect.value.createdAtMs else look.nowMs;
      Some(Ledger(if look.provider.ownership == Owned then Some(createdAtMs) else None, 0,
                  if prior.Some? then prior.value.lifecycle.cumulativeRuntimeMs else 0, None, 0, None, None))
  }

  function SavedJournal(prior: Option<State>, look: Look): Journal {
    if prior.Some? then prior.value.lifecycle else FreshJournal(look.provider)
  }

  // The controller's input and the ledger written beside it; None when observing throws.
  function Observe(journal: Option<State>, ledger: Option<Ledger>, look: Look): Option<(Input, Ledger)> {
    if journal.Some? && Parse(journal.value).None? then None
    else
      var prior := if journal.None? then None else Parse(journal.value);
      var known := ReadLedger(ledger, prior, look);
      if known.None? then None
      else
        var (seen, counted) := Advance(SavedJournal(prior, look), known.value, look);
        Some((Input(look.nowMs, look.config, look.identity, look.permit, look.provider, look.queue, look.guest, seen,
                    look.projectedStartCost), counted))
  }
}
