/**
 What a run is charged (packages/cli/src/runner-service.ts, advanceObservedLifecycle; packages/runner/src/routing.ts,
 projectedStartCostUsd): the recorded cost covers what the recorded runtime, disk time and egress cost, to half a
 micro-dollar, and one start adds at most what was projected for it.
 */
module Spending {
  import opened Contracts
  import opened Controller
  import opened Accounting
  import opened Journaling
  import opened Runs
  import opened Theorems
  import opened Traces
  import opened Routing

  const HALF_MICRO_USD := 0.0000005

  // An hour of compute, a GiB of disk for thirty days, and a GiB of egress cost their rates.
  function Worth(rates: Rates, diskSizeGiB: real, runtimeMs: int, diskMs: int, egressBytes: int): real {
    rates.computeUsdPerHour * (runtimeMs as real / 3_600_000.0)
    + rates.diskUsdPerGibMonth * (diskSizeGiB * (diskMs as real / 2_592_000_000.0))
    + rates.networkEgressUsdPerGib * (egressBytes as real / 1_073_741_824.0)
  }

  function WorthOf(look: Look, runtimeMs: int, ledger: Ledger): real {
    Worth(look.rates, look.diskSizeGiB, runtimeMs, ledger.diskRetainedMs, ledger.networkEgressBytes)
  }

  lemma RoundedNear(value: real)
    ensures value - HALF_MICRO_USD <= RoundMoney(value) <= value + HALF_MICRO_USD + EPSILON
  {
  }

  // The disk term, whichever way it is multiplied.
  lemma Reordered(x: real, size: real, rate: real)
    ensures x * size * rate == rate * (size * x)
  {
  }

  lemma ChargedNear(look: Look, runtimeMs: int, ledger: Ledger)
    ensures WorthOf(look, runtimeMs, ledger) - HALF_MICRO_USD <= CostOf(runtimeMs, ledger, look)
            <= WorthOf(look, runtimeMs, ledger) + HALF_MICRO_USD + EPSILON
  {
    var compute := runtimeMs as real / HOUR_MS * look.rates.computeUsdPerHour;
    var disk := ledger.diskRetainedMs as real / MONTH_MS * look.diskSizeGiB * look.rates.diskUsdPerGibMonth;
    var egress := ledger.networkEgressBytes as real / GIB * look.rates.networkEgressUsdPerGib;
    Reordered(ledger.diskRetainedMs as real / MONTH_MS, look.diskSizeGiB, look.rates.diskUsdPerGibMonth);
    assert compute + disk + egress == WorthOf(look, runtimeMs, ledger);
    RoundedNear(compute + disk + egress);
  }

  // After a reading the recorded cost covers everything recorded, and when it has risen it is that, rounded.
  lemma ReadingCovers(journal: Journal, ledger: Ledger, look: Look)
    ensures var (after, counted) := Advance(journal, ledger, look);
            && after.cumulativeCostUsd >= WorthOf(look, after.cumulativeRuntimeMs, counted) - HALF_MICRO_USD
            && (after.cumulativeCostUsd > journal.cumulativeCostUsd ==>
                  after.cumulativeCostUsd <= WorthOf(look, after.cumulativeRuntimeMs, counted) + HALF_MICRO_USD + EPSILON)
  {
    var (after, counted) := Advance(journal, ledger, look);
    ChargedNear(look, after.cumulativeRuntimeMs, counted);
  }

  // ---- over a run ----

  predicate SameSpending(a: Journal, b: Journal) {
    a.cumulativeRuntimeMs == b.cumulativeRuntimeMs && a.cumulativeCostUsd == b.cumulativeCostUsd
  }

  predicate Covers(journal: Journal, rates: Rates, diskSizeGiB: real, ledger: Ledger) {
    journal.cumulativeCostUsd
    >= Worth(rates, diskSizeGiB, journal.cumulativeRuntimeMs, ledger.diskRetainedMs, ledger.networkEgressBytes) - HALF_MICRO_USD
  }

  // What a write carries is what was just read, or what an earlier write carried.
  ghost predicate Known(log: seq<Step>, journal: Journal) {
    exists k :: 0 <= k < |log| && log[k].Save? && SameSpending(journal, log[k].state.lifecycle)
  }

  lemma {:induction false} JournalKnown(log: seq<Step>)
    ensures JournalOf(log).Some? ==> Known(log, JournalOf(log).value.lifecycle)
  {
    if log != [] && log[|log| - 1].Emit? {
      JournalKnown(log[..|log| - 1]);
      if JournalOf(log).Some? {
        var k :| 0 <= k < |log| - 1 && log[..|log| - 1][k].Save?
          && SameSpending(JournalOf(log).value.lifecycle, log[..|log| - 1][k].state.lifecycle);
        assert log[k].Save? && SameSpending(JournalOf(log).value.lifecycle, log[k].state.lifecycle);
      }
    } else if log != [] {
      assert log[|log| - 1].Save? && SameSpending(JournalOf(log).value.lifecycle, log[|log| - 1].state.lifecycle);
    }
  }

  lemma SaveCarries(first: bool, log: seq<Step>, kind: SaveKind, s: State, input: Input, env: Environment)
    requires LegalSave(first, log, kind, s, input, env)
    ensures SameSpending(s.lifecycle, input.journal) || Known(log, s.lifecycle)
  {
    JournalKnown(log);
    if kind == AmbiguousSave && LateFailure(log, s) {
      assert log[|log| - 3].Save? && SameSpending(s.lifecycle, log[|log| - 3].state.lifecycle);
    }
  }

  // From a world on, every write carries what was read here or what was known before.
  ghost predicate FromReading(log: seq<Step>, before: seq<Step>, seen: Journal) {
    forall k :: 0 <= k < |log| && log[k].Save? ==> SameSpending(log[k].state.lifecycle, seen) || Known(before, log[k].state.lifecycle)
  }

  lemma StepFromReading(first: bool, log: seq<Step>, step: Step, input: Input, env: Environment, before: seq<Step>)
    requires FromReading(log, before, input.journal) && Legal(first, log, step, input, env)
    ensures FromReading(log + [step], before, input.journal)
  {
    if step.Save? {
      SaveCarries(first, log, step.kind, step.state, input, env);
    }
  }

  lemma NothingNew(log: seq<Step>, seen: Journal)
    ensures FromReading(log, log, seen)
  {
    forall k | 0 <= k < |log| && log[k].Save? ensures Known(log, log[k].state.lifecycle) {
      assert SameSpending(log[k].state.lifecycle, log[k].state.lifecycle);
    }
  }

  lemma ActFromReading(w: World, act: Act)
    requires Sound(w.log, w.clock) && Admissible(w, act) && Observe(JournalOf(w.log), w.ledger, act.look).Some?
    ensures FromReading(Perform(w, act).log, w.log, Observe(JournalOf(w.log), w.ledger, act.look).value.0.journal)
  {
    var input := Observe(JournalOf(w.log), w.ledger, act.look).value.0;
    NothingNew(w.log, input.journal);
    var inv := (f: bool, l: seq<Step>) => FromReading(l, w.log, input.journal);
    forall f, l, step | Sound(l, input.nowMs) && inv(f, l) && Legal(f, l, step, input, EnvOf(act)) ensures inv(false, l + [step]) {
      StepFromReading(f, l, step, input, EnvOf(act), w.log);
    }
    ActInduction(inv, w, act);
  }

  // The reading of an act covers the journal it shows, with the ledger the act leaves.
  lemma ActCovers(w: World, act: Act)
    requires Observe(JournalOf(w.log), w.ledger, act.look).Some?
    ensures Perform(w, act).ledger.Some?
    ensures Covers(Observe(JournalOf(w.log), w.ledger, act.look).value.0.journal, act.look.rates, act.look.diskSizeGiB,
                   Perform(w, act).ledger.value)
  {
    var j := JournalOf(w.log);
    var prior := if j.None? then None else Parse(j.value);
    ReadingCovers(SavedJournal(prior, act.look), ReadLedger(w.ledger, prior, act.look).value, act.look);
  }

  // Every write is covered by some reading of the run so far.
  ghost predicate AllCovered(ws: seq<World>, n: nat, rates: Rates, diskSizeGiB: real)
    requires n < |ws|
  {
    forall k :: 0 <= k < |ws[n].log| && ws[n].log[k].Save? ==> CoveredBy(ws, n, ws[n].log[k].state.lifecycle, rates, diskSizeGiB)
  }

  ghost predicate CoveredBy(ws: seq<World>, n: nat, journal: Journal, rates: Rates, diskSizeGiB: real)
    requires n < |ws|
  {
    exists m :: 0 <= m <= n && ws[m].ledger.Some? && Covers(journal, rates, diskSizeGiB, ws[m].ledger.value)
  }

  lemma CoveredLater(ws: seq<World>, n: nat, a: Journal, b: Journal, rates: Rates, diskSizeGiB: real)
    requires n + 1 < |ws| && CoveredBy(ws, n, a, rates, diskSizeGiB) && SameSpending(b, a)
    ensures CoveredBy(ws, n + 1, b, rates, diskSizeGiB)
  {
    var m :| 0 <= m <= n && ws[m].ledger.Some? && Covers(a, rates, diskSizeGiB, ws[m].ledger.value);
    assert Covers(b, rates, diskSizeGiB, ws[m].ledger.value);
  }

  lemma CoveredStep(ws: seq<World>, n: nat, log: seq<Step>, seen: Journal, rates: Rates, diskSizeGiB: real)
    requires n + 1 < |ws| && AllCovered(ws, n, rates, diskSizeGiB) && log == ws[n + 1].log && FromReading(log, ws[n].log, seen)
    requires ws[n + 1].ledger.Some? && Covers(seen, rates, diskSizeGiB, ws[n + 1].ledger.value)
    ensures AllCovered(ws, n + 1, rates, diskSizeGiB)
  {
    forall k | 0 <= k < |log| && log[k].Save? ensures CoveredBy(ws, n + 1, log[k].state.lifecycle, rates, diskSizeGiB) {
      var journal := log[k].state.lifecycle;
      if SameSpending(journal, seen) {
        assert Covers(journal, rates, diskSizeGiB, ws[n + 1].ledger.value);
      } else {
        var i :| 0 <= i < |ws[n].log| && ws[n].log[i].Save? && SameSpending(journal, ws[n].log[i].state.lifecycle);
        CoveredLater(ws, n, ws[n].log[i].state.lifecycle, journal, rates, diskSizeGiB);
      }
    }
  }

  lemma ActKeepsCovered(ws: seq<World>, n: nat, w: World, act: Act, v: World, rates: Rates, diskSizeGiB: real)
    requires n + 1 < |ws| && w == ws[n] && v == ws[n + 1] && Moves(w, act, v) && AllCovered(ws, n, rates, diskSizeGiB)
    requires act.look.rates == rates && act.look.diskSizeGiB == diskSizeGiB
    ensures AllCovered(ws, n + 1, rates, diskSizeGiB)
  {
    var observed := Observe(JournalOf(w.log), w.ledger, act.look);
    if observed.Some? {
      ActFromReading(w, act);
      ActCovers(w, act);
      CoveredStep(ws, n, v.log, observed.value.0.journal, rates, diskSizeGiB);
    } else {
      assert v.log == w.log;
      forall k | 0 <= k < |v.log| && v.log[k].Save? ensures CoveredBy(ws, n + 1, v.log[k].state.lifecycle, rates, diskSizeGiB) {
        CoveredLater(ws, n, w.log[k].state.lifecycle, v.log[k].state.lifecycle, rates, diskSizeGiB);
      }
    }
  }

  lemma {:induction false} TraceCovered(ws: seq<World>, acts: seq<Act>, n: nat, rates: Rates, diskSizeGiB: real)
    requires Trace(ws, acts) && n <= |acts| && ws[0].log == []
    requires forall m :: 0 <= m < |acts| ==> acts[m].look.rates == rates && acts[m].look.diskSizeGiB == diskSizeGiB
    ensures AllCovered(ws, n, rates, diskSizeGiB)
  {
    if n > 0 {
      TraceCovered(ws, acts, n - 1, rates, diskSizeGiB);
      assert MoveAt(ws, acts, n - 1);
      ActKeepsCovered(ws, n - 1, ws[n - 1], acts[n - 1], ws[n], rates, diskSizeGiB);
    }
  }

  // Under fixed rates every cost a run ever journaled covers the runtime journaled with it, and the disk time and egress
  // of one of the run's readings, to half a micro-dollar.
  lemma EveryCostCovers(acts: seq<Act>, k: nat, rates: Rates, diskSizeGiB: real) returns (m: nat)
    requires Allowed(acts) && k < |After(acts).log| && After(acts).log[k].Save?
    requires forall n :: 0 <= n < |acts| ==> acts[n].look.rates == rates && acts[n].look.diskSizeGiB == diskSizeGiB
    ensures m <= |acts| && After(acts[..m]).ledger.Some?
    ensures Covers(After(acts).log[k].state.lifecycle, rates, diskSizeGiB, After(acts[..m]).ledger.value)
  {
    var ws := Worlds(acts);
    RunTraced(acts);
    assert acts[..|acts|] == acts && acts[..0] == [];
    TraceCovered(ws, acts, |acts|, rates, diskSizeGiB);
    assert CoveredBy(ws, |acts|, ws[|acts|].log[k].state.lifecycle, rates, diskSizeGiB);
    m :| 0 <= m <= |acts| && ws[m].ledger.Some?
      && Covers(ws[|acts|].log[k].state.lifecycle, rates, diskSizeGiB, ws[m].ledger.value);
  }

  // ---- the projection ----

  lemma WorthGrows(rates: Rates, diskSizeGiB: real, runtimeMs: int, diskMs: int, egressBytes: int, r: int, d: int, b: int)
    ensures Worth(rates, diskSizeGiB, runtimeMs + r, diskMs + d, egressBytes + b)
            == Worth(rates, diskSizeGiB, runtimeMs, diskMs, egressBytes) + Worth(rates, diskSizeGiB, r, d, b)
  {
    Distributes(rates.computeUsdPerHour, runtimeMs as real / 3_600_000.0, r as real / 3_600_000.0);
    Distributes(diskSizeGiB, diskMs as real / 2_592_000_000.0, d as real / 2_592_000_000.0);
    Distributes(rates.diskUsdPerGibMonth, diskSizeGiB * (diskMs as real / 2_592_000_000.0), diskSizeGiB * (d as real / 2_592_000_000.0));
    Distributes(rates.networkEgressUsdPerGib, egressBytes as real / 1_073_741_824.0, b as real / 1_073_741_824.0);
  }

  lemma Distributes(x: real, y: real, z: real)
    ensures x * (y + z) == x * y + x * z
  {
  }

  lemma Monotone(x: real, y: real, z: real)
    requires 0.0 <= x && y <= z
    ensures x * y <= x * z
  {
  }

  // What is projected is what a whole lifetime of compute and disk and the whole egress limit are worth.
  lemma ProjectionIsWorth(rates: Rates, diskSizeGiB: real, lifetimeMs: int, limitGiB: real, limitBytes: int)
    requires 0.0 <= limitGiB && limitBytes as real == limitGiB * 1_073_741_824.0
    ensures ProjectedStartCost(rates, diskSizeGiB, lifetimeMs, Some(limitGiB))
            == Finite(Worth(rates, diskSizeGiB, lifetimeMs, lifetimeMs, limitBytes))
  {
    Reordered(lifetimeMs as real / MONTH_MS, diskSizeGiB, rates.diskUsdPerGibMonth);
    assert limitBytes as real / 1_073_741_824.0 == limitGiB;
  }

  lemma WorthMonotone(rates: Rates, diskSizeGiB: real, r: int, d: int, b: int, r2: int, d2: int, b2: int)
    requires ParsedPricing(rates, diskSizeGiB) && r <= r2 && d <= d2 && b <= b2
    ensures Worth(rates, diskSizeGiB, r, d, b) <= Worth(rates, diskSizeGiB, r2, d2, b2)
  {
    Monotone(rates.computeUsdPerHour, r as real / 3_600_000.0, r2 as real / 3_600_000.0);
    Monotone(diskSizeGiB, d as real / 2_592_000_000.0, d2 as real / 2_592_000_000.0);
    Monotone(rates.diskUsdPerGibMonth, diskSizeGiB * (d as real / 2_592_000_000.0), diskSizeGiB * (d2 as real / 2_592_000_000.0));
    Monotone(rates.networkEgressUsdPerGib, b as real / 1_073_741_824.0, b2 as real / 1_073_741_824.0);
  }

  // A generation that runs, keeps its disk and sends within the limits adds at most what was projected for its start, and
  // all of it when it uses them up.
  lemma ProjectionCovers(rates: Rates, diskSizeGiB: real, lifetimeMs: int, limitGiB: real, limitBytes: int,
                         runtimeMs: int, diskMs: int, egressBytes: int, r: int, d: int, b: int)
    requires ParsedPricing(rates, diskSizeGiB) && 0.0 <= limitGiB && limitBytes as real == limitGiB * 1_073_741_824.0
    requires r <= lifetimeMs && d <= lifetimeMs && b <= limitBytes
    ensures var projected := ProjectedStartCost(rates, diskSizeGiB, lifetimeMs, Some(limitGiB)).usd;
            var added := Worth(rates, diskSizeGiB, runtimeMs + r, diskMs + d, egressBytes + b) - Worth(rates, diskSizeGiB, runtimeMs, diskMs, egressBytes);
            added <= projected && (r == lifetimeMs && d == lifetimeMs && b == limitBytes ==> added == projected)
  {
    ProjectionIsWorth(rates, diskSizeGiB, lifetimeMs, limitGiB, limitBytes);
    WorthGrows(rates, diskSizeGiB, runtimeMs, diskMs, egressBytes, r, d, b);
    WorthMonotone(rates, diskSizeGiB, r, d, b, lifetimeMs, lifetimeMs, limitBytes);
  }
}
