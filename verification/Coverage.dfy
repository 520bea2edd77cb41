/**
 The coverage sweep of the telemetry store (packages/cli/src/telemetry-store.ts, buildStoreReport): a report is built
 only when the snapshot windows cover every instant from its start to its end.
 */
module Coverage {
  import opened Contracts
  import opened Sorting

  // A stored snapshot; validation guarantees that its window does not end before it starts.
  datatype Snapshot = Snapshot(backfill: bool, windowStartMs: int, collectedAtMs: int)

  datatype Interval = Interval(start: int, end: int)

  datatype Verdict = Complete | DoesNotCover | Gap(start: int, end: int)

  predicate Valid(snapshots: seq<Snapshot>) {
    forall k :: 0 <= k < |snapshots| ==> snapshots[k].windowStartMs <= snapshots[k].collectedAtMs
  }

  function WindowOf(s: Snapshot): Interval { Interval(s.windowStartMs, s.collectedAtMs) }

  function StartOf(interval: Interval): int { interval.start }

  // The windows that count: those not filled in later.
  function Windows(snapshots: seq<Snapshot>): seq<Interval> {
    if snapshots == [] then []
    else
      var n := |snapshots| - 1;
      var before := Windows(snapshots[..n]);
      if snapshots[n].backfill then before
      else before + [WindowOf(snapshots[n])]
  }

  // The report ends with the newest snapshot, but not after the measurement window.
  function Through(snapshots: seq<Snapshot>, sinceMs: int, windowEndMs: Option<int>): (r: int)
    ensures r >= sinceMs
  {
    if snapshots == [] then sinceMs
    else
      var n := |snapshots| - 1;
      var at := snapshots[n].collectedAtMs;
      Max(Through(snapshots[..n], sinceMs, windowEndMs), if windowEndMs.None? then at else Min(windowEndMs.value, at))
  }

  predicate Covers(interval: Interval, t: int) { interval.start <= t < interval.end }

  ghost predicate Covered(windows: seq<Interval>, t: int) { exists k :: 0 <= k < |windows| && Covers(windows[k], t) }

  ghost predicate CoveredFrom(windows: seq<Interval>, from: int, to: int) {
    forall t :: from <= t < to ==> Covered(windows, t)
  }

  ghost predicate StartsAt(windows: seq<Interval>, t: int) { exists k :: 0 <= k < |windows| && windows[k].start == t }

  // A gap from the first uncovered instant up to the next window, or up to the end.
  ghost predicate FirstGap(windows: seq<Interval>, sinceMs: int, throughMs: int, start: int, end: int) {
    && sinceMs <= start < end <= throughMs
    && (forall t :: start <= t < end ==> !Covered(windows, t))
    && CoveredFrom(windows, sinceMs, start)
    && (forall k :: 0 <= k < |windows| ==> !(start < windows[k].start < end))
    && (end == throughMs || StartsAt(windows, end))
  }

  // The first check of the report: some window reaches over the start.
  ghost predicate ReachesStart(windows: seq<Interval>, sinceMs: int) {
    exists k :: 0 <= k < |windows| && windows[k].start <= sinceMs <= windows[k].end
  }

  lemma SortedCover(windows: seq<Interval>, t: int)
    ensures Covered(SortBy(windows, StartOf), t) <==> Covered(windows, t)
  {
    var sorted := SortBy(windows, StartOf);
    if k :| 0 <= k < |sorted| && Covers(sorted[k], t) {
      assert sorted[k] in multiset(windows);
      var i :| 0 <= i < |windows| && windows[i] == sorted[k];
    }
    if k :| 0 <= k < |windows| && Covers(windows[k], t) {
      assert windows[k] in multiset(sorted);
      var i :| 0 <= i < |sorted| && sorted[i] == windows[k];
    }
  }

  // The sweep over windows sorted by their start.
  method Sweep(sorted: seq<Interval>, sinceMs: int, throughMs: int) returns (verdict: Verdict)
    requires SortedBy(sorted, StartOf) && sinceMs <= throughMs
    requires forall k :: 0 <= k < |sorted| ==> sorted[k].start <= sorted[k].end
    ensures verdict.Complete? <==> CoveredFrom(sorted, sinceMs, throughMs)
    ensures verdict.Gap? ==> FirstGap(sorted, sinceMs, throughMs, verdict.start, verdict.end)
    ensures !verdict.DoesNotCover?
  {
    var coveredThrough := sinceMs;
    for k := 0 to |sorted|
      invariant sinceMs <= coveredThrough
      invariant CoveredFrom(sorted, sinceMs, coveredThrough)
      invariant forall i :: 0 <= i < k ==> sorted[i].end <= coveredThrough
    {
      var interval := sorted[k];
      if coveredThrough >= throughMs {
        break;
      }
      if interval.end <= coveredThrough {
        continue;
      }
      if interval.start > coveredThrough {
        var end := Min(interval.start, throughMs);
        NotYetStarted(sorted, k, coveredThrough, end);
        assert sorted[k].start == interval.start;
        return Gap(coveredThrough, end);
      }
      ExtendCover(sorted, sinceMs, coveredThrough, k);
      coveredThrough := Max(coveredThrough, interval.end);
    }
    if coveredThrough < throughMs {
      assert forall k :: 0 <= k < |sorted| ==> sorted[k].start <= sorted[k].end <= coveredThrough;
      assert !Covered(sorted, coveredThrough);
      verdict := Gap(coveredThrough, throughMs);
    } else {
      verdict := Complete;
    }
  }

  // Windows before k have ended and those from k on have not begun.
  lemma NotYetStarted(sorted: seq<Interval>, k: nat, from: int, to: int)
    requires SortedBy(sorted, StartOf) && k < |sorted| && from < to <= sorted[k].start
    requires forall i :: 0 <= i < |sorted| ==> sorted[i].start <= sorted[i].end
    requires forall i :: 0 <= i < k ==> sorted[i].end <= from
    ensures forall t :: from <= t < to ==> !Covered(sorted, t)
    ensures !Covered(sorted, from)
    ensures forall i :: 0 <= i < |sorted| ==> !(from < sorted[i].start < to)
  {
    assert forall i :: k <= i < |sorted| ==> StartOf(sorted[k]) <= StartOf(sorted[i]);
  }

  lemma ExtendCover(sorted: seq<Interval>, sinceMs: int, coveredThrough: int, k: nat)
    requires k < |sorted| && CoveredFrom(sorted, sinceMs, coveredThrough) && sorted[k].start <= coveredThrough < sorted[k].end
    ensures CoveredFrom(sorted, sinceMs, sorted[k].end)
  {
    forall t | sinceMs <= t < sorted[k].end ensures Covered(sorted, t) {
      if t >= coveredThrough {
        assert Covers(sorted[k], t);
      }
    }
  }

  // The whole check: accepted exactly when the windows reach the start and cover everything up to the end; a refusal
  // for a gap names the earliest one, in full unless an empty snapshot cuts it.
  method CheckCoverage(snapshots: seq<Snapshot>, sinceMs: int, windowEndMs: Option<int>) returns (verdict: Verdict)
    requires Valid(snapshots)
    ensures var windows, throughMs := Windows(snapshots), Through(snapshots, sinceMs, windowEndMs);
            && (verdict.DoesNotCover? <==> !ReachesStart(windows, sinceMs))
            && (verdict.Complete? <==> ReachesStart(windows, sinceMs) && CoveredFrom(windows, sinceMs, throughMs))
            && (verdict.Gap? ==>
                  && FirstGap(windows, sinceMs, throughMs, verdict.start, verdict.end)
                  && (WholeStretch(windows, throughMs, verdict.end) <==> !StoreCut(snapshots, sinceMs, windowEndMs)))
  {
    var windows: seq<Interval>, throughMs, reaches := [], sinceMs, false;
    for n := 0 to |snapshots|
      invariant windows == Windows(snapshots[..n]) && throughMs == Through(snapshots[..n], sinceMs, windowEndMs)
      invariant reaches <==> ReachesStart(windows, sinceMs)
      invariant forall k :: 0 <= k < |windows| ==> windows[k].start <= windows[k].end
    {
      assert snapshots[..n + 1][..n] == snapshots[..n];
      var snapshot := snapshots[n];
      if !snapshot.backfill {
        ReachSnoc(windows, WindowOf(snapshot), sinceMs);
        reaches := reaches || snapshot.windowStartMs <= sinceMs <= snapshot.collectedAtMs;
        windows := windows + [WindowOf(snapshot)];
      }
      throughMs := Max(throughMs, if windowEndMs.None? then snapshot.collectedAtMs else Min(windowEndMs.value, snapshot.collectedAtMs));
    }
    assert snapshots[..|snapshots|] == snapshots;
    if !reaches {
      return DoesNotCover;
    }
    var sorted := SortBy(windows, StartOf);
    SortBySorted(windows, StartOf);
    SortedValid(windows);
    verdict := Sweep(sorted, sinceMs, throughMs);
    SortedSame(windows, sinceMs, throughMs);
    if verdict.Gap? {
      StoreGapMaximalExactly(snapshots, sinceMs, windowEndMs, verdict.start, verdict.end);
    }
  }

  lemma ReachSnoc(windows: seq<Interval>, last: Interval, sinceMs: int)
    ensures ReachesStart(windows + [last], sinceMs) <==> ReachesStart(windows, sinceMs) || last.start <= sinceMs <= last.end
  {
    var longer := windows + [last];
    assert longer[|windows|] == last;
    assert forall k :: 0 <= k < |windows| ==> longer[k] == windows[k];
  }

  lemma SortedValid(windows: seq<Interval>)
    requires forall k :: 0 <= k < |windows| ==> windows[k].start <= windows[k].end
    ensures forall k :: 0 <= k < |SortBy(windows, StartOf)| ==> SortBy(windows, StartOf)[k].start <= SortBy(windows, StartOf)[k].end
  {
    var sorted := SortBy(windows, StartOf);
    forall k | 0 <= k < |sorted| ensures sorted[k].start <= sorted[k].end {
      assert sorted[k] in multiset(windows);
      var i :| 0 <= i < |windows| && windows[i] == sorted[k];
    }
  }

  lemma SortedStarts(windows: seq<Interval>, t: int)
    ensures StartsAt(windows, t) <==> StartsAt(SortBy(windows, StartOf), t)
  {
    var sorted := SortBy(windows, StartOf);
    if k :| 0 <= k < |sorted| && sorted[k].start == t {
      assert sorted[k] in multiset(windows);
      var i :| 0 <= i < |windows| && windows[i] == sorted[k];
    }
    if k :| 0 <= k < |windows| && windows[k].start == t {
      assert windows[k] in multiset(sorted);
      var i :| 0 <= i < |sorted| && sorted[i] == windows[k];
      assert sorted[i].start == t;
    }
  }

  // Sorting changes no statement about coverage.
  lemma SortedSame(windows: seq<Interval>, sinceMs: int, throughMs: int)
    ensures var sorted := SortBy(windows, StartOf);
            && (CoveredFrom(sorted, sinceMs, throughMs) <==> CoveredFrom(windows, sinceMs, throughMs))
            && forall start, end :: FirstGap(sorted, sinceMs, throughMs, start, end) ==> FirstGap(windows, sinceMs, throughMs, start, end)
  {
    var sorted := SortBy(windows, StartOf);
    forall t ensures Covered(sorted, t) <==> Covered(windows, t) {
      SortedCover(windows, t);
    }
    forall start, end | FirstGap(sorted, sinceMs, throughMs, start, end) ensures FirstGap(windows, sinceMs, throughMs, start, end) {
      SortedStarts(windows, end);
      forall k | 0 <= k < |windows| ensures !(start < windows[k].start < end) {
        SortedStarts(windows, windows[k].start);
        assert StartsAt(windows, windows[k].start);
      }
    }
  }

  // A store with a gap is not complete, and its first gap is unique.
  lemma FirstGapUnique(windows: seq<Interval>, sinceMs: int, throughMs: int, a: int, b: int, c: int, d: int)
    requires FirstGap(windows, sinceMs, throughMs, a, b) && FirstGap(windows, sinceMs, throughMs, c, d)
    ensures a == c && b == d && !CoveredFrom(windows, sinceMs, throughMs)
  {
    assert !Covered(windows, a) && !Covered(windows, c);
  }

  // An empty window stands inside the first uncovered stretch, before the end.
  ghost predicate Cut(windows: seq<Interval>, sinceMs: int, throughMs: int) {
    exists w, u :: w in windows && CutBy(windows, sinceMs, throughMs, w, u)
  }

  ghost predicate CutBy(windows: seq<Interval>, sinceMs: int, throughMs: int, window: Interval, u: int) {
    && window.start == window.end < throughMs && sinceMs <= u < window.start
    && CoveredFrom(windows, sinceMs, u) && forall t :: u <= t <= window.start ==> !Covered(windows, t)
  }

  ghost predicate WholeStretch(windows: seq<Interval>, throughMs: int, end: int) { end == throughMs || Covered(windows, end) }

  // The first gap ends where the uncovered stretch does, if and only if no empty window cuts it.
  lemma GapMaximalExactly(windows: seq<Interval>, sinceMs: int, throughMs: int, start: int, end: int)
    requires FirstGap(windows, sinceMs, throughMs, start, end)
    requires forall k :: 0 <= k < |windows| ==> windows[k].start <= windows[k].end
    ensures WholeStretch(windows, throughMs, end) <==> !Cut(windows, sinceMs, throughMs)
  {
    if !WholeStretch(windows, throughMs, end) {
      var k :| 0 <= k < |windows| && windows[k].start == end;
      assert !Covers(windows[k], end);
      assert windows[k] in windows && CutBy(windows, sinceMs, throughMs, windows[k], start);
    }
    if Cut(windows, sinceMs, throughMs) {
      var w, u :| w in windows && CutBy(windows, sinceMs, throughMs, w, u);
      CutEndsGap(windows, sinceMs, throughMs, start, end, w, u);
    }
  }

  lemma CutEndsGap(windows: seq<Interval>, sinceMs: int, throughMs: int, start: int, end: int, window: Interval, u: int)
    requires FirstGap(windows, sinceMs, throughMs, start, end) && window in windows
    requires CutBy(windows, sinceMs, throughMs, window, u)
    ensures u == start && !WholeStretch(windows, throughMs, end)
  {
    assert !Covered(windows, u) && !Covered(windows, start);
  }

  // ---- in terms of the stored snapshots ----

  predicate CountsAsEmpty(s: Snapshot) { !s.backfill && s.windowStartMs == s.collectedAtMs }

  // A snapshot collected at the instant its window starts, inside the first uncovered stretch.
  ghost predicate StoreCut(snapshots: seq<Snapshot>, sinceMs: int, windowEndMs: Option<int>) {
    exists s, u :: s in snapshots && CountsAsEmpty(s)
                   && CutBy(Windows(snapshots), sinceMs, Through(snapshots, sinceMs, windowEndMs), WindowOf(s), u)
  }

  // The windows are those of the snapshots that are not backfilled.
  lemma {:induction false} WindowsOfSnapshots(snapshots: seq<Snapshot>, w: Interval)
    ensures w in Windows(snapshots)
            <==> exists s :: s in snapshots && !s.backfill && s.windowStartMs == w.start && s.collectedAtMs == w.end
  {
    if snapshots != [] {
      var n := |snapshots| - 1;
      WindowsOfSnapshots(snapshots[..n], w);
      assert snapshots == snapshots[..n] + [snapshots[n]];
    }
  }

  // The report ends at the earliest instant that is not before its start and by which every snapshot was collected or the
  // measurement window is over.
  lemma {:induction false} ThroughExactly(snapshots: seq<Snapshot>, sinceMs: int, windowEndMs: Option<int>, t: int)
    ensures Through(snapshots, sinceMs, windowEndMs) <= t
            <==> (&& sinceMs <= t
                  && ((windowEndMs.Some? && windowEndMs.value <= t)
                      || forall k :: 0 <= k < |snapshots| ==> snapshots[k].collectedAtMs <= t))
  {
    if snapshots != [] {
      var n := |snapshots| - 1;
      ThroughExactly(snapshots[..n], sinceMs, windowEndMs, t);
      assert forall k :: 0 <= k < n ==> snapshots[..n][k] == snapshots[k];
    }
  }

  lemma CutOfStore(snapshots: seq<Snapshot>, sinceMs: int, windowEndMs: Option<int>)
    ensures Cut(Windows(snapshots), sinceMs, Through(snapshots, sinceMs, windowEndMs)) <==> StoreCut(snapshots, sinceMs, windowEndMs)
  {
    var windows, throughMs := Windows(snapshots), Through(snapshots, sinceMs, windowEndMs);
    if Cut(windows, sinceMs, throughMs) {
      var w, u :| w in windows && CutBy(windows, sinceMs, throughMs, w, u);
      WindowsOfSnapshots(snapshots, w);
      var s :| s in snapshots && !s.backfill && s.windowStartMs == w.start && s.collectedAtMs == w.end;
      assert w == WindowOf(s);
      assert CountsAsEmpty(s);
    }
    if StoreCut(snapshots, sinceMs, windowEndMs) {
      var s, u :| s in snapshots && CountsAsEmpty(s) && CutBy(windows, sinceMs, throughMs, WindowOf(s), u);
      WindowsOfSnapshots(snapshots, WindowOf(s));
    }
  }

  lemma ValidWindows(snapshots: seq<Snapshot>)
    requires Valid(snapshots)
    ensures forall k :: 0 <= k < |Windows(snapshots)| ==> Windows(snapshots)[k].start <= Windows(snapshots)[k].end
  {
    forall k | 0 <= k < |Windows(snapshots)| ensures Windows(snapshots)[k].start <= Windows(snapshots)[k].end {
      WindowsOfSnapshots(snapshots, Windows(snapshots)[k]);
    }
  }

  // The gap a refused store is told about is the whole uncovered stretch if and only if no empty snapshot cuts it.
  lemma StoreGapMaximalExactly(snapshots: seq<Snapshot>, sinceMs: int, windowEndMs: Option<int>, start: int, end: int)
    requires Valid(snapshots)
    requires FirstGap(Windows(snapshots), sinceMs, Through(snapshots, sinceMs, windowEndMs), start, end)
    ensures WholeStretch(Windows(snapshots), Through(snapshots, sinceMs, windowEndMs), end)
            <==> !StoreCut(snapshots, sinceMs, windowEndMs)
  {
    ValidWindows(snapshots);
    GapMaximalExactly(Windows(snapshots), sinceMs, Through(snapshots, sinceMs, windowEndMs), start, end);
    CutOfStore(snapshots, sinceMs, windowEndMs);
  }

  // Without empty windows every reported gap is maximal.
  lemma NoEmptyWindowNoCut(snapshots: seq<Snapshot>, sinceMs: int, windowEndMs: Option<int>, start: int, end: int)
    requires forall s :: s in snapshots && !s.backfill ==> s.windowStartMs < s.collectedAtMs
    requires FirstGap(Windows(snapshots), sinceMs, Through(snapshots, sinceMs, windowEndMs), start, end)
    ensures WholeStretch(Windows(snapshots), Through(snapshots, sinceMs, windowEndMs), end)
  {
    forall w | w in Windows(snapshots) ensures w.start < w.end {
      WindowsOfSnapshots(snapshots, w);
    }
    GapMaximalExactly(Windows(snapshots), sinceMs, Through(snapshots, sinceMs, windowEndMs), start, end);
  }

  lemma WindowsSnoc(snapshots: seq<Snapshot>, s: Snapshot)
    ensures Windows(snapshots + [s]) == if s.backfill then Windows(snapshots) else Windows(snapshots) + [WindowOf(s)]
  {
    assert (snapshots + [s])[..|snapshots|] == snapshots;
  }

  lemma ThroughSnoc(snapshots: seq<Snapshot>, s: Snapshot, sinceMs: int, windowEndMs: Option<int>)
    ensures Through(snapshots + [s], sinceMs, windowEndMs)
            == Max(Through(snapshots, sinceMs, windowEndMs),
                   if windowEndMs.None? then s.collectedAtMs else Min(windowEndMs.value, s.collectedAtMs))
  {
    assert (snapshots + [s])[..|snapshots|] == snapshots;
  }

  function CutStore(): seq<Snapshot> { [] + [Snapshot(false, 0, 1)] + [Snapshot(false, 5, 5)] + [Snapshot(false, 9, 12)] }

  lemma CutStoreRead()
    ensures Windows(CutStore()) == [Interval(0, 1), Interval(5, 5), Interval(9, 12)] && Through(CutStore(), 0, None) == 12
  {
    var a, b, c := Snapshot(false, 0, 1), Snapshot(false, 5, 5), Snapshot(false, 9, 12);
    WindowsSnoc([], a);
    WindowsSnoc([] + [a], b);
    WindowsSnoc([] + [a] + [b], c);
    ThroughSnoc([], a, 0, None);
    ThroughSnoc([] + [a], b, 0, None);
    ThroughSnoc([] + [a] + [b], c, 0, None);
  }

  // A store whose second snapshot was collected at the instant its window starts: the report from 0 is refused for the
  // gap from 1 to 5, although everything up to 9 is uncovered.
  lemma EmptyWindowCutsGap()
    ensures Valid(CutStore()) && ReachesStart(Windows(CutStore()), 0)
    ensures FirstGap(Windows(CutStore()), 0, Through(CutStore(), 0, None), 1, 5)
    ensures (forall t :: 1 <= t < 9 ==> !Covered(Windows(CutStore()), t)) && StoreCut(CutStore(), 0, None)
  {
    CutStoreRead();
    var windows := [Interval(0, 1), Interval(5, 5), Interval(9, 12)];
    assert Covers(windows[0], 0);
    assert windows[1].start == 5;
    StoreGapMaximalExactly(CutStore(), 0, None, 1, 5);
  }
}
