/**
 Merging job telemetry (packages/cli/src/telemetry.ts): snapshots are folded into one record a job, a later
 observation may complete or correct an earlier one, and anything else is refused as a conflict.
 Labels come sorted and the price table is a parameter.
 */
module Telemetry {
  import opened Contracts
  import opened Sorting

  // A timestamp as written and as parsed: two texts may name one instant.
  datatype Time = Time(text: string, ms: int)

  datatype Visibility = Private | Public
  datatype RunnerKind = GithubHosted | Cirujano | SelfHosted
  datatype Status = Measured | NotRun | Incomplete

  datatype Price = Price(sku: string, usdPerMinute: real)
  type Prices = (seq<string>, RunnerKind) -> Option<Price>

  // The job's key: repository, run, attempt and job.
  datatype Key = Key(repository: string, runId: int, runAttempt: int, jobId: int)

  // What GitHub reports of a job.
  datatype Source = Source(
    key: Key, visibility: Visibility, workflowName: string, jobName: string, event: string, conclusion: string,
    createdAt: Time, startedAt: Option<Time>, completedAt: Option<Time>,
    runnerName: string, runnerGroupName: string, labels: seq<string>)

  // A stored job: its source and what is derived from it.
  datatype Job = Job(
    source: Source, runnerKind: RunnerKind, status: Status, durationMs: Option<int>, billableMinutes: Option<int>,
    price: Option<Price>, listCostUsd: Option<real>, counterfactualUsd: Option<real>)

  // Rounding to eight decimals, halves up as Math.round does.
  function Money(value: real): real { (value * 100_000_000.0 + 0.5).Floor as real / 100_000_000.0 }

  function CeilMinutes(ms: int): int
    requires ms >= 0
  {
    (ms + 59_999) / 60_000
  }

  function KindOfRunner(s: Source): RunnerKind {
    if "self-hosted" !in s.labels then GithubHosted
    else if "cirujano-" <= s.runnerName then Cirujano
    else SelfHosted
  }

  function StatusOf(s: Source): Status {
    if s.conclusion == "" then Incomplete
    else if s.startedAt.Some? && s.completedAt.Some? && s.completedAt.value.ms >= s.startedAt.value.ms then Measured
    else if s.startedAt.None? && s.completedAt.None? then NotRun
    else Incomplete
  }

  function DurationOf(s: Source): (r: Option<int>)
    ensures r.Some? ==> r.value >= 0
    ensures r.Some? <==> StatusOf(s) != Incomplete
  {
    match StatusOf(s)
    case Measured => Some(s.completedAt.value.ms - s.startedAt.value.ms)
    case NotRun => Some(0)
    case Incomplete => None
  }

  function MinutesCost(minutes: int, usdPerMinute: real): real { Money(minutes as real * usdPerMinute) }

  function CostOf(s: Source, free: bool, price: Option<Price>): Option<real> {
    if free || StatusOf(s) == NotRun || s.visibility == Public then Some(0.0)
    else if DurationOf(s).None? || price.None? then None
    else Some(MinutesCost(CeilMinutes(DurationOf(s).value), price.value.usdPerMinute))
  }

  // normalizeTelemetryJob: the derived fields are a function of the observed ones.
  function Normalize(s: Source, prices: Prices): Job {
    var kind := KindOfRunner(s);
    var price := prices(s.labels, kind);
    var duration := DurationOf(s);
    Job(s, kind, StatusOf(s), duration, if duration.None? then None else Some(CeilMinutes(duration.value)), price,
        CostOf(s, kind != GithubHosted, price), CostOf(s, kind == SelfHosted, price))
  }

  // Store validation: a stored job is the normalisation of its source.
  predicate Valid(job: Job, prices: Prices) { job == Normalize(job.source, prices) }

  // ---- what normalisation derives ----

  // The least whole number of minutes that is long enough.
  lemma MinutesExactly(ms: int, minutes: int)
    requires ms >= 0
    ensures minutes == CeilMinutes(ms) <==> minutes * 60_000 >= ms && (minutes - 1) * 60_000 < ms
  {
  }

  // A job is measured when it ended with both times known and in order, not run when it ended without any, and otherwise
  // incomplete; the duration is the time between, none for one that did not run, and unknown for an incomplete one.
  lemma StatusExactly(s: Source, prices: Prices)
    ensures var job := Normalize(s, prices);
            && (job.status == Measured
                <==> s.conclusion != "" && s.startedAt.Some? && s.completedAt.Some? && s.startedAt.value.ms <= s.completedAt.value.ms)
            && (job.status == NotRun <==> s.conclusion != "" && s.startedAt.None? && s.completedAt.None?)
            && (job.status == Measured ==> job.durationMs == Some(s.completedAt.value.ms - s.startedAt.value.ms))
            && (job.status == NotRun ==> job.durationMs == Some(0))
            && (job.status == Incomplete <==> job.durationMs.None?)
            && (job.billableMinutes.Some? <==> job.durationMs.Some?)
            && (job.durationMs.Some? ==> job.billableMinutes == Some(CeilMinutes(job.durationMs.value)))
  {
  }

  lemma MoneyNear(value: real)
    ensures value - 0.000000005 <= Money(value) <= value + 0.000000005
  {
  }

  // What a job costs at this price, to half a unit in the eighth place; unknown when its minutes or its price are.
  predicate Priced(job: Job, cost: Option<real>) {
    if job.billableMinutes.None? || job.price.None? then cost.None?
    else
      var exact := job.billableMinutes.value as real * job.price.value.usdPerMinute;
      cost.Some? && exact - 0.000000005 <= cost.value <= exact + 0.000000005
  }

  // Only GitHub-hosted jobs cost their list price, and of the self-hosted ones only those of this fleet would have. A job
  // that did not run, or ran in a public repository, costs nothing.
  lemma CostsExactly(s: Source, prices: Prices)
    ensures var job := Normalize(s, prices);
            var nothing := s.visibility == Public || (s.conclusion != "" && s.startedAt.None? && s.completedAt.None?);
            && (if nothing || job.runnerKind != GithubHosted then job.listCostUsd == Some(0.0) else Priced(job, job.listCostUsd))
            && (if nothing || job.runnerKind == SelfHosted then job.counterfactualUsd == Some(0.0) else Priced(job, job.counterfactualUsd))
            && job.price == prices(s.labels, job.runnerKind)
  {
    var job := Normalize(s, prices);
    if job.billableMinutes.Some? && job.price.Some? {
      MoneyNear(job.billableMinutes.value as real * job.price.value.usdPerMinute);
    }
  }

  lemma RunnerExactly(s: Source, prices: Prices)
    ensures var kind := Normalize(s, prices).runnerKind;
            && (kind == GithubHosted <==> "self-hosted" !in s.labels)
            && (kind == Cirujano <==> "self-hosted" in s.labels && |s.runnerName| >= 9 && s.runnerName[..9] == "cirujano-")
  {
    assert |"cirujano-"| == 9;
  }

  // ---- merging two observations of one job ----

  // Fills in missing timing only; identity, known timestamps and the original visibility stay.
  function CompletedTiming(earlier: Job, later: Job, prices: Prices): Option<Job> {
    var e, l := earlier.source, later.source;
    if earlier.status != Incomplete || later.status != Measured then None
    else if e.startedAt.Some? && e.startedAt != l.startedAt then None
    else if e.completedAt.Some? && e.completedAt != l.completedAt then None
    else
      var timed := e.(startedAt := l.startedAt, completedAt := l.completedAt);
      if Normalize(timed.(visibility := l.visibility), prices) != later then None else Some(Normalize(timed, prices))
  }

  // They differ in visibility, and otherwise at most in the costs that follow from it.
  predicate VisibilityDrift(a: Job, b: Job) {
    && a.source.visibility != b.source.visibility
    && b == a.(source := a.source.(visibility := b.source.visibility),
               listCostUsd := b.listCostUsd, counterfactualUsd := b.counterfactualUsd)
  }

  predicate CreationDrift(a: Job, b: Job) { a != b && b == a.(source := a.source.(createdAt := b.source.createdAt)) }

  // None for a conflicting duplicate, which aggregateTelemetry refuses.
  function Merge(existing: Job, job: Job, prices: Prices): Option<Job> {
    if existing == job then Some(existing)
    else if CompletedTiming(existing, job, prices).Some? then CompletedTiming(existing, job, prices)
    else if VisibilityDrift(existing, job) then Some(existing)
    else if job.source.key.runAttempt == 1 || !CreationDrift(existing, job) then None
    else if job.source.createdAt.ms > existing.source.createdAt.ms then Some(job)
    else Some(existing)
  }

  // Visibility reprices a job and changes nothing else.
  lemma VisibilityOnlyReprices(s: Source, visibility: Visibility, prices: Prices)
    ensures var a, b := Normalize(s, prices), Normalize(s.(visibility := visibility), prices);
            b == a.(source := b.source, listCostUsd := b.listCostUsd, counterfactualUsd := b.counterfactualUsd)
  {
  }

  // A merge absorbs the observation it has taken in, and keeps the job's key.
  lemma MergeAbsorbs(existing: Job, job: Job, prices: Prices)
    requires Valid(existing, prices) && Valid(job, prices) && Merge(existing, job, prices).Some?
    ensures var merged := Merge(existing, job, prices).value;
            && Valid(merged, prices) && merged.source.key == existing.source.key == job.source.key
            && Merge(merged, job, prices) == Some(merged)
  {
    var completed := CompletedTiming(existing, job, prices);
    if existing != job && completed.Some? {
      VisibilityOnlyReprices(completed.value.source, job.source.visibility, prices);
    }
  }

  // What an accepted observation may change: missing times, or a later creation time of a retry. Never the visibility
  // the job first ran under, a known time, or anything else.
  lemma MergeKeepsIdentity(existing: Job, job: Job, prices: Prices)
    requires Valid(existing, prices) && Valid(job, prices) && Merge(existing, job, prices).Some?
    ensures var before, after := existing.source, Merge(existing, job, prices).value.source;
            && after == before.(createdAt := after.createdAt, startedAt := after.startedAt, completedAt := after.completedAt)
            && (before.startedAt.Some? ==> after.startedAt == before.startedAt)
            && (before.completedAt.Some? ==> after.completedAt == before.completedAt)
            && after.createdAt.ms >= before.createdAt.ms
            && (after.createdAt != before.createdAt ==> before.key.runAttempt != 1)
  {
  }

  // ---- when two observations of a job are accepted ----

  // The later one is measured, agrees with the one time the earlier one knows, and differs otherwise at most in visibility.
  predicate Completes(e: Source, l: Source) {
    && l == e.(startedAt := l.startedAt, completedAt := l.completedAt, visibility := l.visibility)
    && l.conclusion != "" && l.startedAt.Some? && l.completedAt.Some? && l.startedAt.value.ms <= l.completedAt.value.ms
    && ((e.startedAt == l.startedAt && e.completedAt.None?) || (e.startedAt.None? && e.completedAt == l.completedAt))
  }

  predicate OnlyVisibilityDiffers(e: Source, l: Source) { l != e && l == e.(visibility := l.visibility) }

  predicate OnlyRetryCreationDiffers(e: Source, l: Source) {
    l != e && l == e.(createdAt := l.createdAt) && e.key.runAttempt != 1
  }

  predicate Compatible(e: Source, l: Source) { e == l || Completes(e, l) || OnlyVisibilityDiffers(e, l) || OnlyRetryCreationDiffers(e, l) }

  // The first visibility, every time known by now, and the latest creation of a retry.
  function Combined(e: Source, l: Source): Source {
    if Completes(e, l) then e.(startedAt := l.startedAt, completedAt := l.completedAt)
    else if OnlyRetryCreationDiffers(e, l) && l.createdAt.ms > e.createdAt.ms then l
    else e
  }

  lemma TimingExactly(existing: Job, job: Job, prices: Prices)
    requires Valid(existing, prices) && Valid(job, prices) && existing.source != job.source
    ensures CompletedTiming(existing, job, prices).Some? <==> Completes(existing.source, job.source)
    ensures Completes(existing.source, job.source) ==>
              CompletedTiming(existing, job, prices) == Some(Normalize(Combined(existing.source, job.source), prices))
  {
  }

  // The creation time dates a job and changes nothing else.
  lemma CreationOnlyDates(s: Source, createdAt: Time, prices: Prices)
    ensures Normalize(s.(createdAt := createdAt), prices) == Normalize(s, prices).(source := s.(createdAt := createdAt))
  {
    var t := s.(createdAt := createdAt);
    assert KindOfRunner(t) == KindOfRunner(s) && StatusOf(t) == StatusOf(s) && DurationOf(t) == DurationOf(s);
    var price := prices(s.labels, KindOfRunner(s));
    SameCost(s, t, KindOfRunner(s) != GithubHosted, price);
    SameCost(s, t, KindOfRunner(s) == SelfHosted, price);
  }

  lemma SameCost(s: Source, t: Source, free: bool, price: Option<Price>)
    requires StatusOf(t) == StatusOf(s) && DurationOf(t) == DurationOf(s) && t.visibility == s.visibility
    ensures CostOf(t, free, price) == CostOf(s, free, price)
  {
    if DurationOf(s).Some? {
      assert CeilMinutes(DurationOf(t).value) == CeilMinutes(DurationOf(s).value);
    }
  }

  lemma DriftExactly(existing: Job, job: Job, prices: Prices)
    requires Valid(existing, prices) && Valid(job, prices)
    ensures VisibilityDrift(existing, job) <==> OnlyVisibilityDiffers(existing.source, job.source)
    ensures CreationDrift(existing, job) && job.source.key.runAttempt != 1 <==> OnlyRetryCreationDiffers(existing.source, job.source)
  {
    VisibilityOnlyReprices(existing.source, job.source.visibility, prices);
    CreationOnlyDates(existing.source, job.source.createdAt, prices);
  }

  // Two observations of a job are merged if and only if they are compatible, and into what they say together.
  lemma MergeExactly(existing: Job, job: Job, prices: Prices)
    requires Valid(existing, prices) && Valid(job, prices)
    ensures Merge(existing, job, prices)
            == if Compatible(existing.source, job.source) then Some(Normalize(Combined(existing.source, job.source), prices)) else None
  {
    if existing.source != job.source {
      TimingExactly(existing, job, prices);
      DriftExactly(existing, job, prices);
    }
  }

  // ---- folding snapshots ----

  datatype Snapshot = Snapshot(collectedAtMs: int, jobs: seq<Job>)

  // A keyed collection that remembers the order in which its keys came, as a JavaScript Map does.
  datatype Table = Table(jobs: map<Key, Job>, order: seq<Key>)

  function Set(table: Table, key: Key, job: Job): Table {
    Table(table.jobs[key := job], if key in table.jobs then table.order else table.order + [key])
  }

  // Whether the report counts the job: its last known time is not before the start, nor its creation after the end.
  predicate InWindow(job: Job, sinceMs: int, windowEndMs: Option<int>) {
    var s := job.source;
    var last := if s.completedAt.Some? then s.completedAt.value else if s.startedAt.Some? then s.startedAt.value else s.createdAt;
    last.ms >= sinceMs && (windowEndMs.Some? ==> s.createdAt.ms <= windowEndMs.value)
  }

  // A job is left out exactly when its last known time is before the start, or it was created after the end.
  lemma LeftOutExactly(job: Job, sinceMs: int, windowEndMs: Option<int>)
    ensures var s := job.source;
            !InWindow(job, sinceMs, windowEndMs) <==>
              || (s.completedAt.Some? && s.completedAt.value.ms < sinceMs)
              || (s.completedAt.None? && s.startedAt.Some? && s.startedAt.value.ms < sinceMs)
              || (s.completedAt.None? && s.startedAt.None? && s.createdAt.ms < sinceMs)
              || (windowEndMs.Some? && windowEndMs.value < s.createdAt.ms)
  {
  }

  // With its times in order: when every time known of it is before the start, or it was created after the end.
  lemma LeftOutWhenAllBefore(job: Job, sinceMs: int, windowEndMs: Option<int>)
    requires var s := job.source;
             && (s.startedAt.Some? ==> s.createdAt.ms <= s.startedAt.value.ms)
             && (s.completedAt.Some? ==> s.createdAt.ms <= s.completedAt.value.ms)
             && (s.startedAt.Some? && s.completedAt.Some? ==> s.startedAt.value.ms <= s.completedAt.value.ms)
    ensures var s := job.source;
            !InWindow(job, sinceMs, windowEndMs) <==>
              || (s.createdAt.ms < sinceMs && (s.startedAt.Some? ==> s.startedAt.value.ms < sinceMs)
                  && (s.completedAt.Some? ==> s.completedAt.value.ms < sinceMs))
              || (windowEndMs.Some? && windowEndMs.value < s.createdAt.ms)
  {
  }

  function Put(table: Table, job: Job, window: (int, Option<int>), prices: Prices): Option<Table> {
    var key := job.source.key;
    if !InWindow(job, window.0, window.1) then Some(table)
    else if key !in table.jobs then Some(Set(table, key, job))
    else if Merge(table.jobs[key], job, prices).None? then None
    else Some(Set(table, key, Merge(table.jobs[key], job, prices).value))
  }

  function PutAll(table: Table, jobs: seq<Job>, window: (int, Option<int>), prices: Prices): Option<Table> {
    if jobs == [] then Some(table)
    else
      var before := PutAll(table, jobs[..|jobs| - 1], window, prices);
      if before.None? then None else Put(before.value, jobs[|jobs| - 1], window, prices)
  }

  function FoldAll(snapshots: seq<Snapshot>, window: (int, Option<int>), prices: Prices): Option<Table> {
    if snapshots == [] then Some(Table(map[], []))
    else
      var before := FoldAll(snapshots[..|snapshots| - 1], window, prices);
      if before.None? then None else PutAll(before.value, snapshots[|snapshots| - 1].jobs, window, prices)
  }

  function CollectedAt(s: Snapshot): int { s.collectedAtMs }

  // The merged jobs of a report: snapshots in collection order.
  function MergedJobs(snapshots: seq<Snapshot>, window: (int, Option<int>), prices: Prices): Option<Table> {
    FoldAll(SortBy(snapshots, CollectedAt), window, prices)
  }

  method Aggregate(snapshots: seq<Snapshot>, sinceMs: int, windowEndMs: Option<int>, prices: Prices) returns (result: Option<Table>)
    ensures result == MergedJobs(snapshots, (sinceMs, windowEndMs), prices)
  {
    var window := (sinceMs, windowEndMs);
    var chronological := SortBy(snapshots, CollectedAt);
    var byKey := Table(map[], []);
    for n := 0 to |chronological|
      invariant FoldAll(chronological[..n], window, prices) == Some(byKey)
    {
      assert chronological[..n + 1][..n] == chronological[..n];
      var merged := TakeIn(byKey, chronological[n].jobs, window, prices);
      if merged.None? {
        FoldStuck(chronological, n + 1, window, prices);
        return None;
      }
      byKey := merged.value;
    }
    assert chronological[..|chronological|] == chronological;
    result := Some(byKey);
  }

  // The jobs of one snapshot.
  method TakeIn(table: Table, jobs: seq<Job>, window: (int, Option<int>), prices: Prices) returns (result: Option<Table>)
    ensures result == PutAll(table, jobs, window, prices)
  {
    var byKey := table;
    for k := 0 to |jobs|
      invariant PutAll(table, jobs[..k], window, prices) == Some(byKey)
    {
      assert jobs[..k + 1][..k] == jobs[..k];
      var job := jobs[k];
      if InWindow(job, window.0, window.1) {
        if job.source.key !in byKey.jobs {
          byKey := Set(byKey, job.source.key, job);
        } else {
          var merged := Merge(byKey.jobs[job.source.key], job, prices);
          if merged.None? {
            PutAllStuck(table, jobs, k + 1, window, prices);
            return None;
          }
          byKey := Set(byKey, job.source.key, merged.value);
        }
      }
    }
    assert jobs[..|jobs|] == jobs;
    result := Some(byKey);
  }

  // A conflict is final.
  lemma {:induction false} PutAllStuck(table: Table, jobs: seq<Job>, k: nat, window: (int, Option<int>), prices: Prices)
    requires k <= |jobs| && PutAll(table, jobs[..k], window, prices).None?
    ensures PutAll(table, jobs, window, prices).None?
  {
    if k == |jobs| {
      assert jobs[..k] == jobs;
    } else {
      assert jobs[..|jobs| - 1][..k] == jobs[..k];
      PutAllStuck(table, jobs[..|jobs| - 1], k, window, prices);
    }
  }

  lemma {:induction false} FoldStuck(snapshots: seq<Snapshot>, n: nat, window: (int, Option<int>), prices: Prices)
    requires n <= |snapshots| && FoldAll(snapshots[..n], window, prices).None?
    ensures FoldAll(snapshots, window, prices).None?
  {
    if n == |snapshots| {
      assert snapshots[..n] == snapshots;
    } else {
      assert snapshots[..|snapshots| - 1][..n] == snapshots[..n];
      FoldStuck(snapshots[..|snapshots| - 1], n, window, prices);
    }
  }

  // ---- a snapshot taken in twice changes nothing ----

  // What store validation guarantees of one snapshot.
  ghost predicate ValidJobs(jobs: seq<Job>, prices: Prices) {
    && (forall k :: 0 <= k < |jobs| ==> Valid(jobs[k], prices))
    && (forall i, k :: 0 <= i < k < |jobs| ==> jobs[i].source.key != jobs[k].source.key)
  }

  ghost predicate AllValid(snapshots: seq<Snapshot>, prices: Prices) {
    forall s :: s in snapshots ==> ValidJobs(s.jobs, prices)
  }

  ghost predicate GoodTable(table: Table, prices: Prices) {
    forall key :: key in table.jobs ==> Valid(table.jobs[key], prices) && table.jobs[key].source.key == key
  }

  lemma SetSame(table: Table, key: Key)
    requires key in table.jobs
    ensures Set(table, key, table.jobs[key]) == table
  {
    assert table.jobs[key := table.jobs[key]] == table.jobs;
  }

  lemma PutKeepsTable(table: Table, job: Job, window: (int, Option<int>), prices: Prices)
    requires GoodTable(table, prices) && Valid(job, prices) && Put(table, job, window, prices).Some?
    ensures GoodTable(Put(table, job, window, prices).value, prices)
    ensures Put(Put(table, job, window, prices).value, job, window, prices) == Put(table, job, window, prices)
  {
    var key := job.source.key;
    if InWindow(job, window.0, window.1) {
      if key in table.jobs {
        MergeAbsorbs(table.jobs[key], job, prices);
      }
      var after := Put(table, job, window, prices).value;
      SetSame(after, key);
    }
  }

  lemma {:induction false} PutAllAbsorbs(table: Table, jobs: seq<Job>, window: (int, Option<int>), prices: Prices)
    requires GoodTable(table, prices) && ValidJobs(jobs, prices) && PutAll(table, jobs, window, prices).Some?
    ensures var after := PutAll(table, jobs, window, prices).value;
            && GoodTable(after, prices)
            && forall k :: 0 <= k < |jobs| ==> Put(after, jobs[k], window, prices) == Some(after)
  {
    if jobs != [] {
      var n := |jobs| - 1;
      PutAllAbsorbs(table, jobs[..n], window, prices);
      var before := PutAll(table, jobs[..n], window, prices).value;
      PutKeepsTable(before, jobs[n], window, prices);
      var after := PutAll(table, jobs, window, prices).value;
      forall k | 0 <= k < |jobs| ensures Put(after, jobs[k], window, prices) == Some(after) {
        if k < n {
          assert jobs[..n][k] == jobs[k];
          OtherKeyUntouched(before, after, jobs[k], window, prices);
        }
      }
    }
  }

  // A job already absorbed stays absorbed while other keys change.
  lemma OtherKeyUntouched(before: Table, after: Table, job: Job, window: (int, Option<int>), prices: Prices)
    requires Put(before, job, window, prices) == Some(before)
    requires var key := job.source.key; key in before.jobs ==> key in after.jobs && after.jobs[key] == before.jobs[key]
    ensures Put(after, job, window, prices) == Some(after)
  {
    var key := job.source.key;
    if InWindow(job, window.0, window.1) {
      assert key in before.jobs;
      var merged := Merge(before.jobs[key], job, prices);
      assert merged.Some? && before.jobs[key := merged.value] == before.jobs;
      assert merged.value == before.jobs[key];
      SetSame(after, key);
    }
  }

  lemma {:induction false} PutAgain(table: Table, jobs: seq<Job>, window: (int, Option<int>), prices: Prices)
    requires forall k :: 0 <= k < |jobs| ==> Put(table, jobs[k], window, prices) == Some(table)
    ensures PutAll(table, jobs, window, prices) == Some(table)
  {
    if jobs != [] {
      PutAgain(table, jobs[..|jobs| - 1], window, prices);
    }
  }

  lemma {:induction false} FoldKeepsTable(snapshots: seq<Snapshot>, window: (int, Option<int>), prices: Prices)
    requires AllValid(snapshots, prices)
    ensures FoldAll(snapshots, window, prices).Some? ==> GoodTable(FoldAll(snapshots, window, prices).value, prices)
  {
    if snapshots != [] && FoldAll(snapshots, window, prices).Some? {
      var n := |snapshots| - 1;
      FoldKeepsTable(snapshots[..n], window, prices);
      assert snapshots[n] in snapshots;
      PutAllAbsorbs(FoldAll(snapshots[..n], window, prices).value, snapshots[n].jobs, window, prices);
    }
  }

  lemma TwiceAtEnd(before: seq<Snapshot>, s: Snapshot, window: (int, Option<int>), prices: Prices)
    requires AllValid(before, prices) && ValidJobs(s.jobs, prices)
    ensures FoldAll(before + [s, s], window, prices) == FoldAll(before + [s], window, prices)
  {
    assert before + [s, s] == (before + [s]) + [s];
    FoldSnoc(before + [s], s, window, prices);
    FoldSnoc(before, s, window, prices);
    FoldKeepsTable(before, window, prices);
    if FoldAll(before + [s], window, prices).Some? {
      PutAllAbsorbs(FoldAll(before, window, prices).value, s.jobs, window, prices);
      PutAgain(FoldAll(before + [s], window, prices).value, s.jobs, window, prices);
    }
  }

  lemma FoldSnoc(snapshots: seq<Snapshot>, s: Snapshot, window: (int, Option<int>), prices: Prices)
    ensures FoldAll(snapshots + [s], window, prices)
            == var before := FoldAll(snapshots, window, prices);
               if before.None? then None else PutAll(before.value, s.jobs, window, prices)
  {
    assert (snapshots + [s])[..|snapshots|] == snapshots;
  }

  lemma LastApart<T>(a: seq<T>, b: seq<T>)
    requires b != []
    ensures a + b == (a + b[..|b| - 1]) + [b[|b| - 1]]
  {
  }

  // Two equal snapshots in a row are one.
  lemma {:induction false} FoldTwice(before: seq<Snapshot>, s: Snapshot, after: seq<Snapshot>, window: (int, Option<int>), prices: Prices)
    requires AllValid(before, prices) && ValidJobs(s.jobs, prices)
    ensures FoldAll(before + [s, s] + after, window, prices) == FoldAll(before + [s] + after, window, prices)
  {
    if after == [] {
      assert before + [s, s] + after == before + [s, s] && before + [s] + after == before + [s];
      TwiceAtEnd(before, s, window, prices);
    } else {
      var n := |after| - 1;
      FoldTwice(before, s, after[..n], window, prices);
      LastApart(before + [s, s], after);
      LastApart(before + [s], after);
      FoldSnoc(before + [s, s] + after[..n], after[n], window, prices);
      FoldSnoc(before + [s] + after[..n], after[n], window, prices);
    }
  }

  // ---- each merged job is listed once ----

  // Every key of the collection stands in the order exactly once.
  ghost predicate Ordered(table: Table) {
    && (forall key :: key in table.order <==> key in table.jobs)
    && forall i, k :: 0 <= i < k < |table.order| ==> table.order[i] != table.order[k]
  }

  lemma SetOrdered(table: Table, key: Key, job: Job)
    requires Ordered(table)
    ensures Ordered(Set(table, key, job))
  {
    assert forall k :: 0 <= k < |table.order| ==> table.order[k] in table.order;
  }

  lemma {:induction false} PutAllOrdered(table: Table, jobs: seq<Job>, window: (int, Option<int>), prices: Prices)
    requires Ordered(table) && PutAll(table, jobs, window, prices).Some?
    ensures Ordered(PutAll(table, jobs, window, prices).value)
  {
    if jobs != [] {
      var n := |jobs| - 1;
      PutAllOrdered(table, jobs[..n], window, prices);
      PutOrdered(PutAll(table, jobs[..n], window, prices).value, jobs[n], window, prices);
    }
  }

  lemma PutOrdered(table: Table, job: Job, window: (int, Option<int>), prices: Prices)
    requires Ordered(table) && Put(table, job, window, prices).Some?
    ensures Ordered(Put(table, job, window, prices).value)
  {
    var key := job.source.key;
    if key in table.jobs && Merge(table.jobs[key], job, prices).Some? {
      SetOrdered(table, key, Merge(table.jobs[key], job, prices).value);
    } else {
      SetOrdered(table, key, job);
    }
  }

  lemma {:induction false} FoldOrdered(snapshots: seq<Snapshot>, window: (int, Option<int>), prices: Prices)
    requires FoldAll(snapshots, window, prices).Some?
    ensures Ordered(FoldAll(snapshots, window, prices).value)
  {
    if snapshots != [] {
      var n := |snapshots| - 1;
      FoldOrdered(snapshots[..n], window, prices);
      PutAllOrdered(FoldAll(snapshots[..n], window, prices).value, snapshots[n].jobs, window, prices);
    }
  }

  // The jobs of a report, in the order in which their keys were first seen.
  ghost predicate Lists(jobs: seq<Job>, table: Table) {
    && |jobs| == |table.order|
    && forall k :: 0 <= k < |jobs| ==> table.order[k] in table.jobs && jobs[k] == table.jobs[table.order[k]]
  }

  // A report lists every merged job exactly once, under its own key.
  lemma ListedOnce(snapshots: seq<Snapshot>, window: (int, Option<int>), prices: Prices, jobs: seq<Job>)
    requires AllValid(snapshots, prices) && MergedJobs(snapshots, window, prices).Some?
    requires Lists(jobs, MergedJobs(snapshots, window, prices).value)
    ensures forall i, k :: 0 <= i < k < |jobs| ==> jobs[i].source.key != jobs[k].source.key
    ensures var table := MergedJobs(snapshots, window, prices).value.jobs;
            forall job: Job :: job in jobs <==> job.source.key in table && table[job.source.key] == job
  {
    var sorted := SortBy(snapshots, CollectedAt);
    SortedValid(snapshots, prices);
    FoldKeepsTable(sorted, window, prices);
    FoldOrdered(sorted, window, prices);
    var table := MergedJobs(snapshots, window, prices).value;
    assert forall k :: 0 <= k < |jobs| ==> jobs[k].source.key == table.order[k];
    forall job: Job | job.source.key in table.jobs && table.jobs[job.source.key] == job ensures job in jobs {
      var k :| 0 <= k < |table.order| && table.order[k] == job.source.key;
      assert jobs[k] == job;
    }
  }

  // ---- when a snapshot is accepted ----

  predicate Counts(job: Job, window: (int, Option<int>)) { InWindow(job, window.0, window.1) }

  // Every job of the snapshot that counts and is known already is compatible with what is known.
  predicate SnapshotFits(table: Table, jobs: seq<Job>, window: (int, Option<int>)) {
    forall k :: 0 <= k < |jobs| && Counts(jobs[k], window) && jobs[k].source.key in table.jobs ==>
      Compatible(table.jobs[jobs[k].source.key].source, jobs[k].source)
  }

  // A job that counts is known afterwards as what it and what was known before say together.
  predicate Absorbed(before: Table, after: Table, job: Job, window: (int, Option<int>), prices: Prices) {
    var key := job.source.key;
    Counts(job, window) ==>
      && key in after.jobs
      && after.jobs[key] == if key in before.jobs then Normalize(Combined(before.jobs[key].source, job.source), prices) else job
  }

  ghost predicate Untouched(before: Table, after: Table, jobs: seq<Job>, window: (int, Option<int>)) {
    forall key :: (forall k :: 0 <= k < |jobs| && Counts(jobs[k], window) ==> jobs[k].source.key != key) ==>
      SameAt(before, after, key)
  }

  lemma PutExactly(table: Table, job: Job, window: (int, Option<int>), prices: Prices)
    requires GoodTable(table, prices) && Valid(job, prices)
    ensures var after := Put(table, job, window, prices);
            && (after.Some? <==> SnapshotFits(table, [job], window))
            && (after.Some? ==> Absorbed(table, after.value, job, window, prices) && Untouched(table, after.value, [job], window))
  {
    assert [job][0] == job;
    if Counts(job, window) && job.source.key in table.jobs {
      MergeExactly(table.jobs[job.source.key], job, prices);
    }
  }

  // A snapshot is taken in if and only if it fits, and then every job of it is absorbed and no other key touched.
  lemma {:induction false} SnapshotExactly(table: Table, jobs: seq<Job>, window: (int, Option<int>), prices: Prices)
    requires GoodTable(table, prices) && ValidJobs(jobs, prices)
    ensures PutAll(table, jobs, window, prices).Some? <==> SnapshotFits(table, jobs, window)
    ensures PutAll(table, jobs, window, prices).Some? ==>
              var after := PutAll(table, jobs, window, prices).value;
              && (forall k :: 0 <= k < |jobs| ==> Absorbed(table, after, jobs[k], window, prices))
              && Untouched(table, after, jobs, window)
  {
    if jobs != [] {
      var n := |jobs| - 1;
      SnapshotExactly(table, jobs[..n], window, prices);
      var before := PutAll(table, jobs[..n], window, prices);
      if before.Some? {
        PutAllAbsorbs(table, jobs[..n], window, prices);
        OthersOnly(table, before.value, jobs, window);
        PutExactly(before.value, jobs[n], window, prices);
        FitsSnoc(table, before.value, jobs, window);
        if PutAll(table, jobs, window, prices).Some? {
          AbsorbedSnoc(table, before.value, PutAll(table, jobs, window, prices).value, jobs, window, prices);
        }
      } else {
        assert forall k :: 0 <= k < n ==> jobs[..n][k] == jobs[k];
      }
    }
  }

  predicate SameAt(a: Table, b: Table, key: Key) {
    (key in a.jobs <==> key in b.jobs) && (key in a.jobs ==> a.jobs[key] == b.jobs[key])
  }

  // The jobs before the last one do not touch its key.
  lemma OthersOnly(table: Table, before: Table, jobs: seq<Job>, window: (int, Option<int>))
    requires jobs != [] && forall i, k :: 0 <= i < k < |jobs| ==> jobs[i].source.key != jobs[k].source.key
    requires Untouched(table, before, jobs[..|jobs| - 1], window)
    ensures SameAt(table, before, jobs[|jobs| - 1].source.key)
  {
    var n := |jobs| - 1;
    assert forall k :: 0 <= k < n ==> jobs[..n][k] == jobs[k];
  }

  lemma FitsSnoc(table: Table, before: Table, jobs: seq<Job>, window: (int, Option<int>))
    requires jobs != [] && SameAt(table, before, jobs[|jobs| - 1].source.key)
    ensures SnapshotFits(table, jobs, window) <==> SnapshotFits(table, jobs[..|jobs| - 1], window) && SnapshotFits(before, [jobs[|jobs| - 1]], window)
  {
    var n := |jobs| - 1;
    assert [jobs[n]][0] == jobs[n];
    assert forall k :: 0 <= k < n ==> jobs[..n][k] == jobs[k];
  }

  lemma AbsorbedSnoc(table: Table, before: Table, after: Table, jobs: seq<Job>, window: (int, Option<int>), prices: Prices)
    requires jobs != [] && forall i, k :: 0 <= i < k < |jobs| ==> jobs[i].source.key != jobs[k].source.key
    requires var n := |jobs| - 1;
             && (forall k :: 0 <= k < n ==> Absorbed(table, before, jobs[..n][k], window, prices)) && Untouched(table, before, jobs[..n], window)
             && Absorbed(before, after, jobs[n], window, prices) && Untouched(before, after, [jobs[n]], window)
             && SameAt(table, before, jobs[n].source.key)
    ensures (forall k :: 0 <= k < |jobs| ==> Absorbed(table, after, jobs[k], window, prices)) && Untouched(table, after, jobs, window)
  {
    var n := |jobs| - 1;
    assert [jobs[n]][0] == jobs[n];
    forall k | 0 <= k < n ensures Absorbed(table, after, jobs[k], window, prices) {
      assert jobs[..n][k] == jobs[k] && Absorbed(table, before, jobs[k], window, prices);
      assert SameAt(before, after, jobs[k].source.key);
    }
    UntouchedSnoc(table, before, after, jobs, window);
  }

  lemma UntouchedSnoc(table: Table, before: Table, after: Table, jobs: seq<Job>, window: (int, Option<int>))
    requires jobs != [] && Untouched(table, before, jobs[..|jobs| - 1], window) && Untouched(before, after, [jobs[|jobs| - 1]], window)
    ensures Untouched(table, after, jobs, window)
  {
    var n := |jobs| - 1;
    forall key | forall k :: 0 <= k < |jobs| && Counts(jobs[k], window) ==> jobs[k].source.key != key ensures SameAt(table, after, key) {
      assert forall k :: 0 <= k < n ==> jobs[..n][k] == jobs[k];
      assert SameAt(table, before, key);
      assert [jobs[n]][0] == jobs[n];
      assert SameAt(before, after, key);
    }
  }

  predicate FitsAt(sorted: seq<Snapshot>, n: nat, window: (int, Option<int>), prices: Prices)
    requires n < |sorted|
  {
    var before := FoldAll(sorted[..n], window, prices);
    before.Some? && SnapshotFits(before.value, sorted[n].jobs, window)
  }

  lemma FitsAtPrefix(sorted: seq<Snapshot>, n: nat, window: (int, Option<int>), prices: Prices)
    requires n < |sorted|
    ensures forall k: nat :: k < n ==> FitsAt(sorted[..n], k, window, prices) == FitsAt(sorted, k, window, prices)
  {
    forall k: nat | k < n ensures FitsAt(sorted[..n], k, window, prices) == FitsAt(sorted, k, window, prices) {
      assert sorted[..n][..k] == sorted[..k] && sorted[..n][k] == sorted[k];
    }
  }

  // A store is accepted if and only if each of its snapshots, in collection order, fits what the ones before it gave.
  lemma {:induction false} StoreExactly(sorted: seq<Snapshot>, window: (int, Option<int>), prices: Prices)
    requires AllValid(sorted, prices)
    ensures FoldAll(sorted, window, prices).Some? <==> forall n: nat :: n < |sorted| ==> FitsAt(sorted, n, window, prices)
  {
    if sorted != [] {
      var n: nat := |sorted| - 1;
      StoreExactly(sorted[..n], window, prices);
      FitsAtPrefix(sorted, n, window, prices);
      LastFits(sorted, window, prices);
    }
  }

  lemma LastFits(sorted: seq<Snapshot>, window: (int, Option<int>), prices: Prices)
    requires sorted != [] && AllValid(sorted, prices)
    ensures FoldAll(sorted, window, prices).Some? <==> FitsAt(sorted, |sorted| - 1, window, prices)
    ensures FoldAll(sorted, window, prices).Some? ==> FoldAll(sorted[..|sorted| - 1], window, prices).Some?
  {
    var n := |sorted| - 1;
    FoldKeepsTable(sorted[..n], window, prices);
    if FoldAll(sorted[..n], window, prices).Some? {
      assert sorted[n] in sorted;
      SnapshotExactly(FoldAll(sorted[..n], window, prices).value, sorted[n].jobs, window, prices);
    }
  }

  lemma OneJob(table: Table, job: Job, window: (int, Option<int>), prices: Prices)
    ensures PutAll(table, [job], window, prices) == Put(table, job, window, prices)
  {
    assert [job][..0] == [];
  }

  lemma FoldPair(first: Job, second: Job, firstMs: int, secondMs: int, window: (int, Option<int>), prices: Prices)
    requires Counts(first, window) && Counts(second, window) && first.source.key == second.source.key && Merge(first, second, prices).Some?
    ensures FoldAll([Snapshot(firstMs, [first]), Snapshot(secondMs, [second])], window, prices)
            == Some(Table(map[first.source.key := Merge(first, second, prices).value], [first.source.key]))
  {
    var a, b, key := Snapshot(firstMs, [first]), Snapshot(secondMs, [second]), first.source.key;
    FoldSnoc([], a, window, prices);
    FoldSnoc([a], b, window, prices);
    assert [] + [a] == [a] && [a] + [b] == [a, b];
    var empty := Table(map[], []);
    OneJob(empty, first, window, prices);
    var one := Table(map[key := first], [key]);
    assert Set(empty, key, first) == one;
    OneJob(one, second, window, prices);
    var merged := Merge(first, second, prices).value;
    assert map[key := first][key := merged] == map[key := merged];
  }

  // Two snapshots of one job, the later of which knows the times the earlier one lacked: the report is not refused, and
  // lists the job once, completed and under its first visibility.
  lemma LateTimesCompleted(e: Source, l: Source, firstMs: int, secondMs: int, window: (int, Option<int>), prices: Prices)
    requires Completes(e, l) && firstMs < secondMs && Counts(Normalize(e, prices), window) && Counts(Normalize(l, prices), window)
    ensures var a, b := Snapshot(firstMs, [Normalize(e, prices)]), Snapshot(secondMs, [Normalize(l, prices)]);
            var listed := Some(Table(map[e.key := Normalize(Combined(e, l), prices)], [e.key]));
            MergedJobs([a, b], window, prices) == listed && MergedJobs([b, a], window, prices) == listed
    ensures Combined(e, l) == e.(startedAt := l.startedAt, completedAt := l.completedAt)
  {
    SortPair(Snapshot(firstMs, [Normalize(e, prices)]), Snapshot(secondMs, [Normalize(l, prices)]), CollectedAt);
    MergeExactly(Normalize(e, prices), Normalize(l, prices), prices);
    FoldPair(Normalize(e, prices), Normalize(l, prices), firstMs, secondMs, window, prices);
  }

  // ---- the order of the list ----

  // The jobs of the snapshots, one after the other.
  function JobsOf(snapshots: seq<Snapshot>): seq<Job> {
    if snapshots == [] then [] else JobsOf(snapshots[..|snapshots| - 1]) + snapshots[|snapshots| - 1].jobs
  }

  lemma {:induction false} PutAllConcat(table: Table, a: seq<Job>, b: seq<Job>, window: (int, Option<int>), prices: Prices)
    ensures var before := PutAll(table, a, window, prices);
            PutAll(table, a + b, window, prices) == if before.None? then None else PutAll(before.value, b, window, prices)
  {
    if b == [] {
      assert a + b == a;
    } else {
      var n := |b| - 1;
      PutAllConcat(table, a, b[..n], window, prices);
      assert (a + b)[..|a| + n] == a + b[..n] && (a + b)[|a| + n] == b[n];
    }
  }

  lemma {:induction false} FoldIsPutAll(snapshots: seq<Snapshot>, window: (int, Option<int>), prices: Prices)
    ensures FoldAll(snapshots, window, prices) == PutAll(Table(map[], []), JobsOf(snapshots), window, prices)
  {
    if snapshots != [] {
      var n := |snapshots| - 1;
      FoldIsPutAll(snapshots[..n], window, prices);
      PutAllConcat(Table(map[], []), JobsOf(snapshots[..n]), snapshots[n].jobs, window, prices);
    }
  }

  // The first of the jobs that counts under its key.
  predicate FirstSeen(jobs: seq<Job>, p: nat, window: (int, Option<int>)) {
    && p < |jobs| && Counts(jobs[p], window)
    && forall m :: 0 <= m < p && Counts(jobs[m], window) ==> jobs[m].source.key != jobs[p].source.key
  }

  ghost predicate SeenAt(jobs: seq<Job>, order: seq<Key>, places: seq<nat>, window: (int, Option<int>)) {
    && |places| == |order| && (forall i, k :: 0 <= i < k < |places| ==> places[i] < places[k])
    && (forall k :: 0 <= k < |places| ==> FirstSeen(jobs, places[k], window) && jobs[places[k]].source.key == order[k])
    && (forall m :: 0 <= m < |jobs| && Counts(jobs[m], window) ==> jobs[m].source.key in order)
  }

  lemma SeenSnoc(jobs: seq<Job>, order: seq<Key>, places: seq<nat>, job: Job, window: (int, Option<int>))
    requires SeenAt(jobs, order, places, window)
    ensures !Counts(job, window) || job.source.key in order ==> SeenAt(jobs + [job], order, places, window)
    ensures Counts(job, window) && job.source.key !in order ==>
              SeenAt(jobs + [job], order + [job.source.key], places + [|jobs|], window)
  {
    var longer := jobs + [job];
    assert forall m :: 0 <= m < |jobs| ==> longer[m] == jobs[m];
    assert forall k :: 0 <= k < |places| ==> FirstSeen(longer, places[k], window);
    if Counts(job, window) && job.source.key !in order {
      assert FirstSeen(longer, |jobs|, window);
    }
  }

  // A job that counts under a new key is listed last; any other changes nothing in the order.
  lemma PutOrder(table: Table, job: Job, window: (int, Option<int>), prices: Prices)
    requires Put(table, job, window, prices).Some?
    ensures Put(table, job, window, prices).value.order
            == if Counts(job, window) && job.source.key !in table.jobs then table.order + [job.source.key] else table.order
  {
  }

  lemma SeenPut(jobs: seq<Job>, table: Table, after: Table, places: seq<nat>, window: (int, Option<int>), prices: Prices)
    returns (longer: seq<nat>)
    requires jobs != [] && SeenAt(jobs[..|jobs| - 1], table.order, places, window) && Ordered(table)
    requires Put(table, jobs[|jobs| - 1], window, prices) == Some(after)
    ensures SeenAt(jobs, after.order, longer, window)
  {
    var job := jobs[|jobs| - 1];
    PutOrder(table, job, window, prices);
    SeenSnoc(jobs[..|jobs| - 1], table.order, places, job, window);
    assert jobs == jobs[..|jobs| - 1] + [job];
    longer := if Counts(job, window) && job.source.key !in table.order then places + [|jobs| - 1] else places;
  }

  lemma {:induction false} PutAllSeen(jobs: seq<Job>, table: Table, window: (int, Option<int>), prices: Prices) returns (places: seq<nat>)
    requires PutAll(Table(map[], []), jobs, window, prices) == Some(table)
    ensures SeenAt(jobs, table.order, places, window)
  {
    if jobs == [] {
      places := [];
    } else {
      var init := jobs[..|jobs| - 1];
      var before := PutAll(Table(map[], []), init, window, prices).value;
      var earlier := PutAllSeen(init, before, window, prices);
      PutAllOrdered(Table(map[], []), init, window, prices);
      places := SeenPut(jobs, before, table, earlier, window, prices);
    }
  }

  // The report lists the keys in the order in which the snapshots, by collection time, first show a job that counts.
  lemma ListedAsSeen(snapshots: seq<Snapshot>, window: (int, Option<int>), prices: Prices) returns (places: seq<nat>)
    requires MergedJobs(snapshots, window, prices).Some?
    ensures SeenAt(JobsOf(SortBy(snapshots, CollectedAt)), MergedJobs(snapshots, window, prices).value.order, places, window)
  {
    FoldIsPutAll(SortBy(snapshots, CollectedAt), window, prices);
    places := PutAllSeen(JobsOf(SortBy(snapshots, CollectedAt)), MergedJobs(snapshots, window, prices).value, window, prices);
  }

  // ---- the order of snapshots does not matter ----

  // Snapshots collected at one instant are the same snapshot.
  ghost predicate TimesApart(snapshots: seq<Snapshot>) {
    forall a, b :: a in snapshots && b in snapshots && a.collectedAtMs == b.collectedAtMs ==> a == b
  }

  lemma {:induction false} SortedUnique(a: seq<Snapshot>, b: seq<Snapshot>)
    requires SortedBy(a, CollectedAt) && SortedBy(b, CollectedAt) && multiset(a) == multiset(b) && TimesApart(a)
    ensures a == b
    decreases |a|
  {
    SameLength(a, b);
    if a != [] {
      LastIsNewest(a, b);
      MultisetInit(a);
      MultisetInit(b);
      InitSorted(a);
      InitSorted(b);
      SortedUnique(a[..|a| - 1], b[..|b| - 1]);
      SameParts(a, b);
    }
  }

  lemma SameLength(a: seq<Snapshot>, b: seq<Snapshot>)
    requires multiset(a) == multiset(b)
    ensures |a| == |b|
  {
    assert |a| == |multiset(a)| == |multiset(b)| == |b|;
  }

  lemma SameParts(a: seq<Snapshot>, b: seq<Snapshot>)
    requires |a| == |b| > 0 && a[..|a| - 1] == b[..|b| - 1] && a[|a| - 1] == b[|b| - 1]
    ensures a == b
  {
    assert a == a[..|a| - 1] + [a[|a| - 1]] && b == b[..|b| - 1] + [b[|b| - 1]];
  }

  lemma InitSorted(s: seq<Snapshot>)
    requires SortedBy(s, CollectedAt) && s != []
    ensures SortedBy(s[..|s| - 1], CollectedAt)
    ensures TimesApart(s) ==> TimesApart(s[..|s| - 1])
  {
  }

  lemma MultisetInit(s: seq<Snapshot>)
    requires s != []
    ensures multiset(s[..|s| - 1]) == multiset(s) - multiset{s[|s| - 1]}
  {
    assert s == s[..|s| - 1] + [s[|s| - 1]];
  }

  lemma LastIsNewest(a: seq<Snapshot>, b: seq<Snapshot>)
    requires SortedBy(a, CollectedAt) && SortedBy(b, CollectedAt) && multiset(a) == multiset(b) && TimesApart(a)
    requires a != [] && |a| == |b|
    ensures a[|a| - 1] == b[|b| - 1]
  {
    var x, y := a[|a| - 1], b[|b| - 1];
    assert x in multiset(b) && y in multiset(a);
    var i :| 0 <= i < |b| && b[i] == x;
    var k :| 0 <= k < |a| && a[k] == y;
    assert CollectedAt(b[i]) <= CollectedAt(y) && CollectedAt(a[k]) <= CollectedAt(x);
  }

  // Snapshots collected at different instants merge to the same jobs in whatever order they are listed.
  lemma OrderDoesNotMatter(a: seq<Snapshot>, b: seq<Snapshot>, window: (int, Option<int>), prices: Prices)
    requires multiset(a) == multiset(b) && TimesApart(a)
    ensures MergedJobs(a, window, prices) == MergedJobs(b, window, prices)
  {
    SortBySorted(a, CollectedAt);
    SortBySorted(b, CollectedAt);
    SortedTimesApart(a);
    SortedUnique(SortBy(a, CollectedAt), SortBy(b, CollectedAt));
  }

  lemma SortedTimesApart(a: seq<Snapshot>)
    requires TimesApart(a)
    ensures TimesApart(SortBy(a, CollectedAt))
  {
    var sorted := SortBy(a, CollectedAt);
    forall x | x in sorted ensures x in a {
      assert x in multiset(sorted);
    }
  }

  // Listing a snapshot once more changes no merged job and causes no conflict.
  lemma RepeatAbsorbed(snapshots: seq<Snapshot>, s: Snapshot, window: (int, Option<int>), prices: Prices)
    requires TimesApart(snapshots) && s in snapshots
    requires AllValid(snapshots, prices)
    ensures MergedJobs(snapshots + [s], window, prices) == MergedJobs(snapshots, window, prices)
  {
    var sorted := SortBy(snapshots, CollectedAt);
    SameMembers(snapshots, CollectedAt, s);
    var before, after := Around(sorted, s);
    RepeatTwice(snapshots, sorted, before, s, after);
    SortedValid(snapshots, prices);
    assert AllValid(before, prices) by {
      assert forall x :: x in before ==> x in sorted;
    }
    FoldTwice(before, s, after, window, prices);
  }

  lemma RepeatTwice(snapshots: seq<Snapshot>, sorted: seq<Snapshot>, before: seq<Snapshot>, s: Snapshot, after: seq<Snapshot>)
    requires TimesApart(snapshots) && sorted == SortBy(snapshots, CollectedAt) == before + [s] + after
    ensures SortBy(snapshots + [s], CollectedAt) == before + [s, s] + after
  {
    SortBySorted(snapshots, CollectedAt);
    SortedTimesApart(snapshots);
    RepeatSorted(snapshots, sorted, before, s, after);
  }

  lemma SortedValid(snapshots: seq<Snapshot>, prices: Prices)
    requires AllValid(snapshots, prices)
    ensures AllValid(SortBy(snapshots, CollectedAt), prices)
  {
    var sorted := SortBy(snapshots, CollectedAt);
    forall x | x in sorted ensures x in snapshots {
      assert x in multiset(sorted);
    }
  }

  lemma RepeatSorted(snapshots: seq<Snapshot>, sorted: seq<Snapshot>, before: seq<Snapshot>, s: Snapshot, after: seq<Snapshot>)
    requires sorted == before + [s] + after && SortedBy(sorted, CollectedAt) && TimesApart(sorted)
    requires multiset(sorted) == multiset(snapshots)
    ensures SortBy(snapshots + [s], CollectedAt) == before + [s, s] + after
  {
    var twice := before + [s, s] + after;
    assert forall k :: 0 <= k < |twice| ==> twice[k] == sorted[if k <= |before| then k else k - 1];
    assert SortedBy(twice, CollectedAt);
    assert multiset(twice) == multiset(snapshots + [s]);
    assert forall x :: x in twice ==> x in sorted;
    SortBySorted(snapshots + [s], CollectedAt);
    SortedUnique(twice, SortBy(snapshots + [s], CollectedAt));
  }

  // ---- the report ----

  function SumOf(jobs: seq<Job>, measure: Job -> int): int {
    if jobs == [] then 0 else SumOf(jobs[..|jobs| - 1], measure) + measure(jobs[|jobs| - 1])
  }

  function OfRepository(jobs: seq<Job>, repository: string): seq<Job> {
    if jobs == [] then []
    else
      var before, last := OfRepository(jobs[..|jobs| - 1], repository), jobs[|jobs| - 1];
      if last.source.key.repository == repository then before + [last] else before
  }

  function SumOfRows(names: seq<string>, jobs: seq<Job>, measure: Job -> int): int {
    if names == [] then 0
    else SumOfRows(names[..|names| - 1], jobs, measure) + SumOf(OfRepository(jobs, names[|names| - 1]), measure)
  }

  function One(job: Job): int { 1 }

  function Minutes(job: Job): int { job.billableMinutes.GetOr(0) }

  function HostedMinutes(job: Job): int { if job.runnerKind == GithubHosted then Minutes(job) else 0 }

  function CirujanoMinutes(job: Job): int { if job.runnerKind == Cirujano then Minutes(job) else 0 }

  function CirujanoJobs(job: Job): int { if job.runnerKind == Cirujano then 1 else 0 }

  function Unpriced(job: Job): int { if job.listCostUsd.None? || job.counterfactualUsd.None? then 1 else 0 }

  // The rows cover every job's repository once.
  ghost predicate RowNames(names: seq<string>, jobs: seq<Job>) {
    && (forall i, k :: 0 <= i < k < |names| ==> names[i] != names[k])
    && (forall k :: 0 <= k < |jobs| ==> jobs[k].source.key.repository in names)
  }

  lemma {:induction false} OneMoreJob(names: seq<string>, jobs: seq<Job>, last: Job, measure: Job -> int)
    requires forall i, k :: 0 <= i < k < |names| ==> names[i] != names[k]
    ensures SumOfRows(names, jobs + [last], measure)
            == SumOfRows(names, jobs, measure) + if last.source.key.repository in names then measure(last) else 0
  {
    if names != [] {
      var n := |names| - 1;
      OneMoreJob(names[..n], jobs, last, measure);
      assert (jobs + [last])[..|jobs|] == jobs;
      assert names == names[..n] + [names[n]];
      var mine := OfRepository(jobs, names[n]);
      assert (mine + [last])[..|mine|] == mine;
    }
  }

  lemma {:induction false} NoJobs(names: seq<string>, measure: Job -> int)
    ensures SumOfRows(names, [], measure) == 0
  {
    if names != [] {
      NoJobs(names[..|names| - 1], measure);
    }
  }

  // The rows of the report add up to its totals, exactly, for every count and every sum of minutes.
  lemma {:induction false} RowsAddUp(names: seq<string>, jobs: seq<Job>, measure: Job -> int)
    requires RowNames(names, jobs)
    ensures SumOfRows(names, jobs, measure) == SumOf(jobs, measure)
  {
    if jobs == [] {
      NoJobs(names, measure);
    } else {
      var n := |jobs| - 1;
      RowsAddUp(names, jobs[..n], measure);
      OneMoreJob(names, jobs[..n], jobs[n], measure);
      assert jobs == jobs[..n] + [jobs[n]];
    }
  }

  lemma ReportAddsUp(names: seq<string>, jobs: seq<Job>)
    requires RowNames(names, jobs)
    ensures SumOfRows(names, jobs, One) == |jobs|
    ensures SumOfRows(names, jobs, HostedMinutes) == SumOf(jobs, HostedMinutes)
    ensures SumOfRows(names, jobs, CirujanoJobs) == SumOf(jobs, CirujanoJobs)
    ensures SumOfRows(names, jobs, CirujanoMinutes) == SumOf(jobs, CirujanoMinutes)
    ensures SumOfRows(names, jobs, Unpriced) == SumOf(jobs, Unpriced)
  {
    RowsAddUp(names, jobs, One);
    RowsAddUp(names, jobs, HostedMinutes);
    RowsAddUp(names, jobs, CirujanoJobs);
    RowsAddUp(names, jobs, CirujanoMinutes);
    RowsAddUp(names, jobs, Unpriced);
    CountOne(jobs);
  }

  lemma {:induction false} CountOne(jobs: seq<Job>)
    ensures SumOf(jobs, One) == |jobs|
  {
    if jobs != [] {
      CountOne(jobs[..|jobs| - 1]);
    }
  }

  function OfKind(jobs: seq<Job>, kind: RunnerKind): seq<Job> {
    if jobs == [] then []
    else
      var before, last := OfKind(jobs[..|jobs| - 1], kind), jobs[|jobs| - 1];
      if last.runnerKind == kind then before + [last] else before
  }

  lemma SumSnoc(jobs: seq<Job>, last: Job, measure: Job -> int)
    ensures SumOf(jobs + [last], measure) == SumOf(jobs, measure) + measure(last)
  {
    assert (jobs + [last])[..|jobs|] == jobs;
  }

  // The minutes and counts printed for a kind of runner are those of its jobs.
  lemma {:induction false} KindSums(jobs: seq<Job>)
    ensures SumOf(jobs, HostedMinutes) == SumOf(OfKind(jobs, GithubHosted), Minutes)
    ensures SumOf(jobs, CirujanoMinutes) == SumOf(OfKind(jobs, Cirujano), Minutes)
    ensures SumOf(jobs, CirujanoJobs) == |OfKind(jobs, Cirujano)|
  {
    if jobs != [] {
      var n := |jobs| - 1;
      KindSums(jobs[..n]);
      SumSnoc(OfKind(jobs[..n], GithubHosted), jobs[n], Minutes);
      SumSnoc(OfKind(jobs[..n], Cirujano), jobs[n], Minutes);
    }
  }
}
