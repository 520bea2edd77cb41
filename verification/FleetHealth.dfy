/**
 Owner release of stranded runs (packages/cli/src/fleet-health.ts): force-cancel each run, wait for it to finish,
 re-run its first stranded job, and account for every run and every job exactly once.
 GitHub's answers are oracles indexed by the position of the call.
 */
module FleetHealth {
  import opened Contracts
  import Routing

  datatype CancelReply = Accepted | AlreadyDone | CancelThrew(error: string)

  datatype StillActive = Unknown | Known(runIds: seq<int>)

  datatype FailedCancel = FailedCancel(runId: int, error: string)
  datatype FailedRerun = FailedRerun(jobId: int, error: string)

  datatype CancelOutcome = CancelOutcome(
    cancelled: seq<int>, alreadyCompleted: seq<int>, rerun: seq<int>, notRerun: seq<int>,
    stillActive: StillActive, failedCancels: seq<FailedCancel>, failedReruns: seq<FailedRerun>)

  // Every stranded job was re-run and nothing is left for a push or dispatch.
  predicate Clean(outcome: CancelOutcome) {
    && outcome.stillActive.Known? && outcome.stillActive.runIds == [] && outcome.notRerun == []
    && outcome.failedReruns == [] && outcome.failedCancels == []
  }

  // A re-run requested from GitHub.
  datatype Call = Call(runId: int, jobId: int)

  datatype GitHub = GitHub(
    cancels: nat -> CancelReply,
    // A listing of the active runs; None when the call fails or the listing is incomplete.
    listings: nat -> Option<set<int>>,
    // None when the re-run is accepted.
    reruns: nat -> Option<string>)

  // ---- the meaning of the loops ----

  function CancelledOf(runs: seq<int>, github: GitHub): seq<int> {
    if runs == [] then []
    else
      var n := |runs| - 1;
      var before := CancelledOf(runs[..n], github);
      if github.cancels(n).Accepted? then before + [runs[n]] else before
  }

  function AlreadyOf(runs: seq<int>, github: GitHub): seq<int> {
    if runs == [] then []
    else
      var n := |runs| - 1;
      var before := AlreadyOf(runs[..n], github);
      if github.cancels(n).AlreadyDone? then before + [runs[n]] else before
  }

  function FailedCancelsOf(runs: seq<int>, github: GitHub): seq<FailedCancel> {
    if runs == [] then []
    else
      var n := |runs| - 1;
      var before := FailedCancelsOf(runs[..n], github);
      if github.cancels(n).CancelThrew? then before + [FailedCancel(runs[n], github.cancels(n).error)] else before
  }

  function Among(runs: seq<int>, ids: set<int>): seq<int> {
    if runs == [] then []
    else if runs[0] in ids then [runs[0]] + Among(runs[1..], ids) else Among(runs[1..], ids)
  }

  function Without(runs: seq<int>, active: seq<int>): (r: seq<int>)
    ensures forall id :: id in r <==> id in runs && id !in active
  {
    if runs == [] then []
    else if runs[0] in active then Without(runs[1..], active) else [runs[0]] + Without(runs[1..], active)
  }

  // The runs still active when the bounded wait ends; None when a listing failed.
  function ActiveAfter(cancelled: seq<int>, github: GitHub, attempts: int, attempt: nat, active: seq<int>): Option<seq<int>>
    decreases attempts - attempt
  {
    if attempt >= attempts then Some(active)
    else if github.listings(attempt).None? then None
    else
      var now := Among(cancelled, github.listings(attempt).value);
      if now == [] then Some([]) else ActiveAfter(cancelled, github, attempts, attempt + 1, now)
  }

  function JobsOf(runId: int, byRun: map<int, seq<int>>): seq<int> {
    if runId in byRun then byRun[runId] else []
  }

  function CallsOf(runs: seq<int>, byRun: map<int, seq<int>>): seq<Call> {
    if runs == [] then []
    else
      var n := |runs| - 1;
      var before, jobs := CallsOf(runs[..n], byRun), JobsOf(runs[n], byRun);
      if jobs == [] then before else before + [Call(runs[n], jobs[0])]
  }

  function RerunsOf(calls: seq<Call>, github: GitHub): seq<int> {
    if calls == [] then []
    else
      var n := |calls| - 1;
      var before := RerunsOf(calls[..n], github);
      if github.reruns(n).None? then before + [calls[n].jobId] else before
  }

  function FailedRerunsOf(calls: seq<Call>, github: GitHub): seq<FailedRerun> {
    if calls == [] then []
    else
      var n := |calls| - 1;
      var before := FailedRerunsOf(calls[..n], github);
      if github.reruns(n).None? then before else before + [FailedRerun(calls[n].jobId, github.reruns(n).value)]
  }

  function NotRerunOf(runs: seq<int>, byRun: map<int, seq<int>>): seq<int> {
    if runs == [] then []
    else
      var n := |runs| - 1;
      var before, jobs := NotRerunOf(runs[..n], byRun), JobsOf(runs[n], byRun);
      if jobs == [] then before else before + jobs[1..]
  }

  // The runs whose first stranded job is re-run.
  function Finished(cancellable: seq<int>, github: GitHub, attempts: int): seq<int> {
    var cancelled := CancelledOf(cancellable, github);
    var active := ActiveAfter(cancelled, github, attempts, 0, []);
    if active.None? then [] else Without(cancelled, active.value)
  }

  function OutcomeOf(cancellable: seq<int>, byRun: map<int, seq<int>>, github: GitHub, attempts: int): CancelOutcome {
    var cancelled := CancelledOf(cancellable, github);
    var active := ActiveAfter(cancelled, github, attempts, 0, []);
    var finished := Finished(cancellable, github, attempts);
    CancelOutcome(cancelled, AlreadyOf(cancellable, github),
                  RerunsOf(CallsOf(finished, byRun), github), NotRerunOf(finished, byRun),
                  if cancelled == [] then Known([]) else if active.None? then Unknown else Known(active.value),
                  FailedCancelsOf(cancellable, github), FailedRerunsOf(CallsOf(finished, byRun), github))
  }

  // ---- the procedure ----

  method CancelAndRerun(cancellable: seq<int>, byRun: map<int, seq<int>>, github: GitHub, attempts: int)
    returns (outcome: CancelOutcome, ghost calls: seq<Call>)
    ensures outcome == OutcomeOf(cancellable, byRun, github, attempts)
    ensures calls == CallsOf(Finished(cancellable, github, attempts), byRun)
  {
    var cancelled, alreadyCompleted, failedCancels := [], [], [];
    for n := 0 to |cancellable|
      invariant cancelled == CancelledOf(cancellable[..n], github)
      invariant alreadyCompleted == AlreadyOf(cancellable[..n], github)
      invariant failedCancels == FailedCancelsOf(cancellable[..n], github)
    {
      assert cancellable[..n + 1][..n] == cancellable[..n];
      match github.cancels(n)
      case Accepted => cancelled := cancelled + [cancellable[n]];
      case AlreadyDone => alreadyCompleted := alreadyCompleted + [cancellable[n]];
      case CancelThrew(error) => failedCancels := failedCancels + [FailedCancel(cancellable[n], error)];
    }
    assert cancellable[..|cancellable|] == cancellable;
    outcome := CancelOutcome(cancelled, alreadyCompleted, [], [], Known([]), failedCancels, []);
    calls := [];
    if cancelled == [] {
      NothingCancelled(github, attempts);
      return;
    }
    var active := WaitUntilFinished(cancelled, github, attempts);
    if active.None? {
      outcome := outcome.(stillActive := Unknown);
      return;
    }
    var rerun, notRerun, failedReruns;
    rerun, notRerun, failedReruns, calls := RerunFinished(Without(cancelled, active.value), byRun, github);
    outcome := outcome.(stillActive := Known(active.value), rerun := rerun, notRerun := notRerun, failedReruns := failedReruns);
  }

  lemma NothingCancelled(github: GitHub, attempts: int)
    ensures var active := ActiveAfter([], github, attempts, 0, []); active.None? || Without([], active.value) == []
  {
  }

  // Polls until no cancelled run is active or the attempts are used up.
  method WaitUntilFinished(cancelled: seq<int>, github: GitHub, attempts: int) returns (result: Option<seq<int>>)
    ensures result == ActiveAfter(cancelled, github, attempts, 0, [])
  {
    var active: seq<int> := [];
    var attempt := 0;
    while attempt < attempts
      invariant 0 <= attempt
      invariant ActiveAfter(cancelled, github, attempts, attempt, active) == ActiveAfter(cancelled, github, attempts, 0, [])
    {
      var listing := github.listings(attempt);
      if listing.None? {
        return None;
      }
      active := Among(cancelled, listing.value);
      if active == [] {
        return Some([]);
      }
      attempt := attempt + 1;
    }
    result := Some(active);
  }

  lemma CallSnoc(calls: seq<Call>, call: Call, github: GitHub)
    ensures RerunsOf(calls + [call], github)
            == if github.reruns(|calls|).None? then RerunsOf(calls, github) + [call.jobId] else RerunsOf(calls, github)
    ensures FailedRerunsOf(calls + [call], github)
            == if github.reruns(|calls|).None? then FailedRerunsOf(calls, github)
               else FailedRerunsOf(calls, github) + [FailedRerun(call.jobId, github.reruns(|calls|).value)]
  {
    assert (calls + [call])[..|calls|] == calls;
  }

  lemma FinishedSnoc(runs: seq<int>, n: nat, byRun: map<int, seq<int>>)
    requires n < |runs|
    ensures var jobs, calls, rest := JobsOf(runs[n], byRun), CallsOf(runs[..n], byRun), NotRerunOf(runs[..n], byRun);
            && CallsOf(runs[..n + 1], byRun) == (if jobs == [] then calls else calls + [Call(runs[n], jobs[0])])
            && NotRerunOf(runs[..n + 1], byRun) == (if jobs == [] then rest else rest + jobs[1..])
  {
    assert runs[..n + 1][..n] == runs[..n];
  }

  method RerunFinished(runs: seq<int>, byRun: map<int, seq<int>>, github: GitHub)
    returns (rerun: seq<int>, notRerun: seq<int>, failed: seq<FailedRerun>, ghost calls: seq<Call>)
    ensures calls == CallsOf(runs, byRun)
    ensures rerun == RerunsOf(calls, github) && failed == FailedRerunsOf(calls, github)
    ensures notRerun == NotRerunOf(runs, byRun)
  {
    rerun, notRerun, failed, calls := [], [], [], [];
    var made := 0;
    for n := 0 to |runs|
      invariant calls == CallsOf(runs[..n], byRun) && made == |calls|
      invariant rerun == RerunsOf(calls, github) && failed == FailedRerunsOf(calls, github)
      invariant notRerun == NotRerunOf(runs[..n], byRun)
    {
      FinishedSnoc(runs, n, byRun);
      var jobs := if runs[n] in byRun then byRun[runs[n]] else [];
      if jobs != [] {
        notRerun := notRerun + jobs[1..];
        var reply := github.reruns(made);
        CallSnoc(calls, Call(runs[n], jobs[0]), github);
        calls := calls + [Call(runs[n], jobs[0])];
        made := made + 1;
        if reply.None? {
          rerun := rerun + [jobs[0]];
        } else {
          failed := failed + [FailedRerun(jobs[0], reply.value)];
        }
      }
    }
    assert runs[..|runs|] == runs;
  }

  // ---- the bounded wait ----

  // Each of the first n listings succeeds and shows a cancelled run.
  ghost predicate Waits(cancelled: seq<int>, github: GitHub, n: nat) {
    forall m: nat :: m < n ==> github.listings(m).Some? && ShowsSome(cancelled, github.listings(m).value)
  }

  ghost predicate ShowsSome(cancelled: seq<int>, ids: set<int>) { exists id :: id in cancelled && id in ids }

  lemma {:induction false} AmongExactly(runs: seq<int>, ids: set<int>)
    ensures forall id :: id in Among(runs, ids) <==> id in runs && id in ids
    ensures Among(runs, ids) == [] <==> !ShowsSome(runs, ids)
  {
    if runs != [] {
      AmongExactly(runs[1..], ids);
      if runs[0] in ids {
        var id := runs[0];
        assert id in runs && id in ids;
      } else if ShowsSome(runs, ids) {
        var id :| id in runs && id in ids;
        assert id in runs[1..];
      }
    }
  }

  lemma {:induction false} WaitsFrom(cancelled: seq<int>, github: GitHub, attempts: nat, attempt: nat, active: seq<int>)
    requires attempt <= attempts && Waits(cancelled, github, attempt)
    requires active == if attempt == 0 then [] else Among(cancelled, github.listings(attempt - 1).value)
    ensures var result := ActiveAfter(cancelled, github, attempts, attempt, active);
            && (result.None? <==> exists k: nat :: k < attempts && Waits(cancelled, github, k) && github.listings(k).None?)
            && (result.Some? && attempts > 0 && Waits(cancelled, github, attempts) ==>
                  result.value == Among(cancelled, github.listings(attempts - 1).value))
            && (result.Some? && !Waits(cancelled, github, attempts) ==> result.value == [])
    decreases attempts - attempt
  {
    if attempt < attempts {
      var listing := github.listings(attempt);
      if listing.Some? {
        AmongExactly(cancelled, listing.value);
        if Among(cancelled, listing.value) == [] {
          assert !Waits(cancelled, github, attempt + 1);
        } else {
          assert Waits(cancelled, github, attempt + 1);
          WaitsFrom(cancelled, github, attempts, attempt + 1, Among(cancelled, listing.value));
        }
      }
    }
  }

  // The runs reported as still active: unknown if and only if a listing fails before one shows no cancelled run; otherwise
  // those of the last listing when all of them show some, and none when one shows none.
  lemma StillActiveExactly(cancelled: seq<int>, github: GitHub, attempts: nat)
    ensures var result := ActiveAfter(cancelled, github, attempts, 0, []);
            && (result.None? <==> exists k: nat :: k < attempts && Waits(cancelled, github, k) && github.listings(k).None?)
            && (result.Some? && attempts > 0 && Waits(cancelled, github, attempts) ==>
                  forall id :: id in result.value <==> id in cancelled && id in github.listings(attempts - 1).value)
            && (result.Some? && !Waits(cancelled, github, attempts) ==> result.value == [])
  {
    WaitsFrom(cancelled, github, attempts, 0, []);
    if attempts > 0 && Waits(cancelled, github, attempts) {
      AmongExactly(cancelled, github.listings(attempts - 1).value);
    }
  }

  // ---- the order of the lists ----

  ghost predicate Ascending(places: seq<nat>, n: nat) {
    (forall k :: 0 <= k < |places| ==> places[k] < n) && forall i, k :: 0 <= i < k < |places| ==> places[i] < places[k]
  }

  // Every list of runs keeps the order of the calls, and holds the runs whose call was answered that way.
  lemma {:induction false} CancelledPlaces(runs: seq<int>, github: GitHub) returns (places: seq<nat>)
    ensures var ids := CancelledOf(runs, github);
            && Ascending(places, |runs|) && |places| == |ids|
            && forall k :: 0 <= k < |ids| ==> ids[k] == runs[places[k]] && github.cancels(places[k]).Accepted?
  {
    places := [];
    if runs != [] {
      var n := |runs| - 1;
      places := CancelledPlaces(runs[..n], github);
      if github.cancels(n).Accepted? {
        places := places + [n];
      }
    }
  }

  lemma {:induction false} AlreadyPlaces(runs: seq<int>, github: GitHub) returns (places: seq<nat>)
    ensures var ids := AlreadyOf(runs, github);
            && Ascending(places, |runs|) && |places| == |ids|
            && forall k :: 0 <= k < |ids| ==> ids[k] == runs[places[k]] && github.cancels(places[k]).AlreadyDone?
  {
    places := [];
    if runs != [] {
      var n := |runs| - 1;
      places := AlreadyPlaces(runs[..n], github);
      if github.cancels(n).AlreadyDone? {
        places := places + [n];
      }
    }
  }

  lemma {:induction false} FailedPlaces(runs: seq<int>, github: GitHub) returns (places: seq<nat>)
    ensures var failed := FailedCancelsOf(runs, github);
            && Ascending(places, |runs|) && |places| == |failed|
            && forall k :: 0 <= k < |failed| ==> failed[k].runId == runs[places[k]] && github.cancels(places[k]) == CancelThrew(failed[k].error)
  {
    places := [];
    if runs != [] {
      var n := |runs| - 1;
      places := FailedPlaces(runs[..n], github);
      if github.cancels(n).CancelThrew? {
        places := places + [n];
      }
    }
  }

  // ---- conservation ----

  function RunIds(failed: seq<FailedCancel>): seq<int> {
    if failed == [] then [] else RunIds(failed[..|failed| - 1]) + [failed[|failed| - 1].runId]
  }

  function JobIds(failed: seq<FailedRerun>): seq<int> {
    if failed == [] then [] else JobIds(failed[..|failed| - 1]) + [failed[|failed| - 1].jobId]
  }

  function StrandedJobs(runs: seq<int>, byRun: map<int, seq<int>>): seq<int> {
    if runs == [] then [] else StrandedJobs(runs[..|runs| - 1], byRun) + JobsOf(runs[|runs| - 1], byRun)
  }

  lemma SnocCount(s: seq<int>, y: int, x: int)
    ensures multiset(s + [y])[x] == multiset(s)[x] + if x == y then 1 else 0
  {
  }

  lemma LastCount(s: seq<int>, x: int)
    requires s != []
    ensures multiset(s)[x] == multiset(s[..|s| - 1])[x] + if x == s[|s| - 1] then 1 else 0
  {
    assert s == s[..|s| - 1] + [s[|s| - 1]];
    SnocCount(s[..|s| - 1], s[|s| - 1], x);
  }

  lemma {:induction false} RunCounted(runs: seq<int>, github: GitHub, x: int)
    ensures multiset(runs)[x] == multiset(CancelledOf(runs, github))[x] + multiset(AlreadyOf(runs, github))[x]
                                 + multiset(RunIds(FailedCancelsOf(runs, github)))[x]
  {
    if runs != [] {
      var n := |runs| - 1;
      var init, id := runs[..n], runs[n];
      RunCounted(init, github, x);
      LastCount(runs, x);
      match github.cancels(n)
      case Accepted => SnocCount(CancelledOf(init, github), id, x);
      case AlreadyDone => SnocCount(AlreadyOf(init, github), id, x);
      case CancelThrew(error) =>
        RunIdsSnoc(FailedCancelsOf(init, github), FailedCancel(id, error));
        SnocCount(RunIds(FailedCancelsOf(init, github)), id, x);
    }
  }

  lemma {:induction false} RunIdsSnoc(failed: seq<FailedCancel>, last: FailedCancel)
    ensures RunIds(failed + [last]) == RunIds(failed) + [last.runId]
  {
    assert (failed + [last])[..|failed|] == failed;
  }

  lemma {:induction false} JobIdsSnoc(failed: seq<FailedRerun>, last: FailedRerun)
    ensures JobIds(failed + [last]) == JobIds(failed) + [last.jobId]
  {
    assert (failed + [last])[..|failed|] == failed;
  }

  // Every cancellable run ends in exactly one of the three lists.
  lemma RunsConserved(runs: seq<int>, github: GitHub)
    ensures multiset(runs) == multiset(CancelledOf(runs, github)) + multiset(AlreadyOf(runs, github))
                              + multiset(RunIds(FailedCancelsOf(runs, github)))
  {
    forall x ensures multiset(runs)[x] == (multiset(CancelledOf(runs, github)) + multiset(AlreadyOf(runs, github))
                                           + multiset(RunIds(FailedCancelsOf(runs, github))))[x]
    {
      RunCounted(runs, github, x);
    }
  }

  ghost predicate Distinct(s: seq<int>) { forall i, k :: 0 <= i < k < |s| ==> s[i] != s[k] }

  lemma {:induction false} DistinctOnce(s: seq<int>, x: int)
    requires Distinct(s)
    ensures multiset(s)[x] == if x in s then 1 else 0
  {
    if s != [] {
      var n := |s| - 1;
      DistinctOnce(s[..n], x);
      assert s == s[..n] + [s[n]];
    }
  }

  lemma EachRunInOneList(cancellable: seq<int>, byRun: map<int, seq<int>>, github: GitHub, attempts: int, id: int)
    requires Distinct(cancellable) && id in cancellable
    ensures var o := OutcomeOf(cancellable, byRun, github, attempts);
            multiset(o.cancelled)[id] + multiset(o.alreadyCompleted)[id] + multiset(RunIds(o.failedCancels))[id] == 1
  {
    RunsConserved(cancellable, github);
    DistinctOnce(cancellable, id);
  }

  lemma {:induction false} CallCounted(calls: seq<Call>, github: GitHub, x: int)
    ensures multiset(RerunsOf(calls, github))[x] + multiset(JobIds(FailedRerunsOf(calls, github)))[x] == multiset(CalledJobs(calls))[x]
  {
    if calls != [] {
      var n := |calls| - 1;
      var init, id := calls[..n], calls[n].jobId;
      CallCounted(init, github, x);
      SnocCount(CalledJobs(init), id, x);
      if github.reruns(n).None? {
        SnocCount(RerunsOf(init, github), id, x);
      } else {
        JobIdsSnoc(FailedRerunsOf(init, github), FailedRerun(id, github.reruns(n).value));
        SnocCount(JobIds(FailedRerunsOf(init, github)), id, x);
      }
    }
  }

  function CalledJobs(calls: seq<Call>): seq<int> {
    if calls == [] then [] else CalledJobs(calls[..|calls| - 1]) + [calls[|calls| - 1].jobId]
  }

  lemma {:induction false} CalledSnoc(calls: seq<Call>, call: Call)
    ensures CalledJobs(calls + [call]) == CalledJobs(calls) + [call.jobId]
  {
    assert (calls + [call])[..|calls|] == calls;
  }

  lemma ConcatCount(s: seq<int>, jobs: seq<int>, x: int)
    ensures multiset(s + jobs)[x] == multiset(s)[x] + multiset(jobs)[x]
  {
  }

  lemma {:induction false} JobCounted(runs: seq<int>, byRun: map<int, seq<int>>, x: int)
    ensures multiset(StrandedJobs(runs, byRun))[x]
            == multiset(CalledJobs(CallsOf(runs, byRun)))[x] + multiset(NotRerunOf(runs, byRun))[x]
  {
    if runs != [] {
      var n := |runs| - 1;
      var init, jobs := runs[..n], JobsOf(runs[n], byRun);
      JobCounted(init, byRun, x);
      ConcatCount(StrandedJobs(init, byRun), jobs, x);
      if jobs != [] {
        assert jobs == [jobs[0]] + jobs[1..];
        ConcatCount([jobs[0]], jobs[1..], x);
        CalledSnoc(CallsOf(init, byRun), Call(runs[n], jobs[0]));
        SnocCount(CalledJobs(CallsOf(init, byRun)), jobs[0], x);
        ConcatCount(NotRerunOf(init, byRun), jobs[1..], x);
      }
    }
  }

  // Every stranded job of a finished run ends in exactly one of re-run, failed and left for a push.
  lemma JobsConserved(cancellable: seq<int>, byRun: map<int, seq<int>>, github: GitHub, attempts: int)
    ensures var o := OutcomeOf(cancellable, byRun, github, attempts);
            multiset(o.rerun) + multiset(JobIds(o.failedReruns)) + multiset(o.notRerun)
            == multiset(StrandedJobs(Finished(cancellable, github, attempts), byRun))
  {
    var finished := Finished(cancellable, github, attempts);
    var o := OutcomeOf(cancellable, byRun, github, attempts);
    forall x ensures (multiset(o.rerun) + multiset(JobIds(o.failedReruns)) + multiset(o.notRerun))[x]
                     == multiset(StrandedJobs(finished, byRun))[x]
    {
      CallCounted(CallsOf(finished, byRun), github, x);
      JobCounted(finished, byRun, x);
    }
  }

  // ---- at most one re-run a run ----

  lemma DistinctSnoc(s: seq<int>, x: int)
    requires Distinct(s) && x !in s
    ensures Distinct(s + [x])
  {
  }

  lemma DistinctInit(s: seq<int>)
    requires Distinct(s) && s != []
    ensures Distinct(s[..|s| - 1]) && s[|s| - 1] !in s[..|s| - 1]
  {
  }

  lemma {:induction false} CancelledInOrder(runs: seq<int>, github: GitHub)
    requires Distinct(runs)
    ensures Distinct(CancelledOf(runs, github)) && forall id :: id in CancelledOf(runs, github) ==> id in runs
  {
    if runs != [] {
      var n := |runs| - 1;
      CancelledInOrder(runs[..n], github);
      DistinctInit(runs);
      DistinctSnoc(CancelledOf(runs[..n], github), runs[n]);
    }
  }

  lemma {:induction false} WithoutDistinct(runs: seq<int>, active: seq<int>)
    requires Distinct(runs)
    ensures Distinct(Without(runs, active))
  {
    if runs != [] {
      WithoutDistinct(runs[1..], active);
      assert forall id :: id in runs[1..] ==> id != runs[0];
    }
  }

  lemma {:induction false} CallsInOrder(runs: seq<int>, byRun: map<int, seq<int>>)
    requires Distinct(runs)
    ensures var calls := CallsOf(runs, byRun);
            && (forall i, k :: 0 <= i < k < |calls| ==> calls[i].runId != calls[k].runId)
            && (forall k :: 0 <= k < |calls| ==>
                  && calls[k].runId in runs && JobsOf(calls[k].runId, byRun) != []
                  && calls[k].jobId == JobsOf(calls[k].runId, byRun)[0])
  {
    if runs != [] {
      var n := |runs| - 1;
      DistinctInit(runs);
      CallsInOrder(runs[..n], byRun);
      assert forall k :: 0 <= k < |CallsOf(runs[..n], byRun)| ==> CallsOf(runs, byRun)[k] == CallsOf(runs[..n], byRun)[k];
    }
  }

  // One re-run at most is requested of a run: its first stranded job, after it was cancelled and seen finished.
  lemma OneRerunPerFinishedRun(cancellable: seq<int>, byRun: map<int, seq<int>>, github: GitHub, attempts: int)
    requires Distinct(cancellable)
    ensures var calls := CallsOf(Finished(cancellable, github, attempts), byRun);
            var o := OutcomeOf(cancellable, byRun, github, attempts);
            && (forall i, k :: 0 <= i < k < |calls| ==> calls[i].runId != calls[k].runId)
            && (forall k :: 0 <= k < |calls| ==>
                  && calls[k].runId in o.cancelled && o.stillActive.Known? && calls[k].runId !in o.stillActive.runIds
                  && JobsOf(calls[k].runId, byRun) != [] && calls[k].jobId == JobsOf(calls[k].runId, byRun)[0])
  {
    CancelledInOrder(cancellable, github);
    var cancelled := CancelledOf(cancellable, github);
    var active := ActiveAfter(cancelled, github, attempts, 0, []);
    if active.Some? {
      WithoutDistinct(cancelled, active.value);
    }
    CallsInOrder(Finished(cancellable, github, attempts), byRun);
  }

  // ---- clean outcomes ----

  lemma {:induction false} WithoutNone(runs: seq<int>)
    ensures Without(runs, []) == runs
  {
    if runs != [] {
      WithoutNone(runs[1..]);
    }
  }

  ghost predicate AllHaveJobs(runs: seq<int>, byRun: map<int, seq<int>>) {
    forall k :: 0 <= k < |runs| ==> JobsOf(runs[k], byRun) != []
  }

  // With at least one job a run, the k-th call is for the k-th run.
  lemma {:induction false} CallPerRun(runs: seq<int>, byRun: map<int, seq<int>>)
    requires AllHaveJobs(runs, byRun)
    ensures |CallsOf(runs, byRun)| == |runs|
    ensures forall k :: 0 <= k < |runs| ==> CallsOf(runs, byRun)[k] == Call(runs[k], JobsOf(runs[k], byRun)[0])
  {
    if runs != [] {
      CallPerRun(runs[..|runs| - 1], byRun);
    }
  }

  lemma {:induction false} NothingLeftExactly(runs: seq<int>, byRun: map<int, seq<int>>)
    requires AllHaveJobs(runs, byRun)
    ensures NotRerunOf(runs, byRun) == [] <==> forall k :: 0 <= k < |runs| ==> |JobsOf(runs[k], byRun)| == 1
  {
    if runs != [] {
      var n := |runs| - 1;
      NothingLeftExactly(runs[..n], byRun);
      assert forall k :: 0 <= k < n ==> runs[..n][k] == runs[k];
      if NotRerunOf(runs, byRun) == [] {
        assert |NotRerunOf(runs[..n], byRun)| == 0;
      }
    }
  }

  lemma {:induction false} NoFailureExactly(calls: seq<Call>, github: GitHub)
    ensures FailedRerunsOf(calls, github) == [] <==> forall k :: 0 <= k < |calls| ==> github.reruns(k).None?
  {
    if calls != [] {
      NoFailureExactly(calls[..|calls| - 1], github);
    }
  }

  lemma {:induction false} RerunsAll(calls: seq<Call>, github: GitHub)
    requires forall k :: 0 <= k < |calls| ==> github.reruns(k).None?
    ensures RerunsOf(calls, github) == CalledJobs(calls)
  {
    if calls != [] {
      RerunsAll(calls[..|calls| - 1], github);
    }
  }

  // The outcome is clean exactly when no cancel failed and, if anything was cancelled, every cancelled run was seen
  // finished, had one stranded job, and that job's re-run was accepted.
  lemma CleanExactly(cancellable: seq<int>, byRun: map<int, seq<int>>, github: GitHub, attempts: int)
    requires AllHaveJobs(cancellable, byRun)
    ensures var cancelled := CancelledOf(cancellable, github);
            Clean(OutcomeOf(cancellable, byRun, github, attempts))
            <==> (&& FailedCancelsOf(cancellable, github) == []
                  && (cancelled == [] ||
                      (&& ActiveAfter(cancelled, github, attempts, 0, []) == Some([])
                       && forall k :: 0 <= k < |cancelled| ==> |JobsOf(cancelled[k], byRun)| == 1 && github.reruns(k).None?)))
  {
    var cancelled := CancelledOf(cancellable, github);
    var active := ActiveAfter(cancelled, github, attempts, 0, []);
    if cancelled == [] {
      NothingCancelled(github, attempts);
      assert Finished(cancellable, github, attempts) == [];
    } else if active == Some([]) {
      WithoutNone(cancelled);
      assert Finished(cancellable, github, attempts) == cancelled;
      CancelledHaveJobs(cancellable, byRun, github);
      CallPerRun(cancelled, byRun);
      NothingLeftExactly(cancelled, byRun);
      NoFailureExactly(CallsOf(cancelled, byRun), github);
    }
  }

  lemma {:induction false} CancelledAmong(runs: seq<int>, github: GitHub)
    ensures forall id :: id in CancelledOf(runs, github) ==> id in runs
  {
    if runs != [] {
      CancelledAmong(runs[..|runs| - 1], github);
    }
  }

  lemma CancelledHaveJobs(cancellable: seq<int>, byRun: map<int, seq<int>>, github: GitHub)
    requires AllHaveJobs(cancellable, byRun)
    ensures AllHaveJobs(CancelledOf(cancellable, github), byRun)
  {
    CancelledAmong(cancellable, github);
    var cancelled := CancelledOf(cancellable, github);
    forall k | 0 <= k < |cancelled| ensures JobsOf(cancelled[k], byRun) != [] {
      assert cancelled[k] in cancelled;
      var i :| 0 <= i < |cancellable| && cancellable[i] == cancelled[k];
    }
  }

  // For the runs the fleet selects, a clean outcome re-ran the only stranded job of every run it cancelled.
  lemma CleanReleaseReranEverything(runs: seq<Routing.Run>, jobs: seq<Routing.Job>, runnerLabel: string,
                                    github: GitHub, attempts: int, id: int)
    requires Routing.DistinctRuns(runs)
    requires var byRun := Routing.ByRunOf(runs, jobs, runnerLabel);
             var o := OutcomeOf(Routing.CancellableOf(runs, jobs, runnerLabel), byRun, github, attempts);
             Clean(o) && id in o.cancelled
    ensures var byRun := Routing.ByRunOf(runs, jobs, runnerLabel);
            var o := OutcomeOf(Routing.CancellableOf(runs, jobs, runnerLabel), byRun, github, attempts);
            id in byRun && |byRun[id]| == 1 && byRun[id][0] in o.rerun
  {
    var cancellable, byRun := Routing.CancellableOf(runs, jobs, runnerLabel), Routing.ByRunOf(runs, jobs, runnerLabel);
    forall k | 0 <= k < |cancellable| ensures JobsOf(cancellable[k], byRun) != [] {
      Routing.CancellableHasJobs(runs, jobs, runnerLabel, cancellable[k]);
    }
    CleanExactly(cancellable, byRun, github, attempts);
    var cancelled := CancelledOf(cancellable, github);
    var calls := CallsOf(cancelled, byRun);
    WithoutNone(cancelled);
    CancelledHaveJobs(cancellable, byRun, github);
    CallPerRun(cancelled, byRun);
    RerunsAll(calls, github);
    var k :| 0 <= k < |cancelled| && cancelled[k] == id;
    CalledJobAt(calls, k);
  }

  lemma {:induction false} CalledJobAt(calls: seq<Call>, k: nat)
    requires k < |calls|
    ensures calls[k].jobId in CalledJobs(calls)
  {
    if k < |calls| - 1 {
      CalledJobAt(calls[..|calls| - 1], k);
    }
  }
}
