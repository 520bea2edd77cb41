/**
 What the accounting measures (packages/cli/src/runner-service.ts, advanceObservedLifecycle): over any row of readings,
 disk time is the time the VM was there, runtime is the time since the generation started, egress is what the guest's
 counter rose, and idle evidence is one entry a reading that is idle or ends a stretch of idleness.
 */
module Metering {
  import opened Contracts
  import opened Lifecycle
  import opened Controller
  import opened Accounting

  // One reading and the journal it was accounted against.
  datatype Reading = Reading(journal: Journal, look: Look)

  function LedgerAfter(start: Ledger, row: seq<Reading>): Ledger {
    if row == [] then start
    else Advance(row[|row| - 1].journal, LedgerAfter(start, row[..|row| - 1]), row[|row| - 1].look).1
  }

  predicate InOrder(row: seq<Reading>) { forall i, k :: 0 <= i < k < |row| ==> row[i].look.nowMs <= row[k].look.nowMs }

  predicate Present(look: Look) { look.provider.ownership == Owned }

  // ---- disk time ----

  // The time between consecutive readings of which the earlier one saw the VM.
  function PresentTime(row: seq<Reading>): int {
    if |row| <= 1 then 0
    else
      var n := |row| - 1;
      PresentTime(row[..n]) + if Present(row[n - 1].look) then row[n].look.nowMs - row[n - 1].look.nowMs else 0
  }

  // The time from before the row that its first reading closes off.
  function Carried(start: Ledger, row: seq<Reading>): int {
    if row == [] || start.diskStartedAtMs.None? then 0 else Max(0, row[0].look.nowMs - start.diskStartedAtMs.value)
  }

  // What one reading adds to the disk time.
  lemma DiskStep(journal: Journal, ledger: Ledger, look: Look)
    ensures var counted := Advance(journal, ledger, look).1;
            && counted.diskStartedAtMs == (if Present(look) then Some(look.nowMs) else None)
            && counted.diskRetainedMs == ledger.diskRetainedMs
                 + if ledger.diskStartedAtMs.None? then 0 else Max(0, look.nowMs - ledger.diskStartedAtMs.value)
  {
  }

  // Retained disk time is exactly the time the VM was seen to be there, and the clock runs on from the last reading that
  // saw it.
  lemma {:induction false} DiskTimeExact(start: Ledger, row: seq<Reading>)
    requires InOrder(row) && row != []
    ensures LedgerAfter(start, row).diskRetainedMs == start.diskRetainedMs + Carried(start, row) + PresentTime(row)
    ensures LedgerAfter(start, row).diskStartedAtMs
            == if Present(row[|row| - 1].look) then Some(row[|row| - 1].look.nowMs) else None
  {
    var n := |row| - 1;
    DiskStep(row[n].journal, LedgerAfter(start, row[..n]), row[n].look);
    if n > 0 {
      DiskTimeExact(start, row[..n]);
      assert row[..n][n - 1] == row[n - 1] && row[..n][0] == row[0];
      assert row[n - 1].look.nowMs <= row[n].look.nowMs;
    } else {
      assert row[..0] == [];
    }
  }

  // ---- runtime ----

  // When the journaled generation started: as journaled, or one lifetime before its deadline.
  predicate StartsAt(journal: Journal, lifetimeMs: int, startedMs: int) {
    if journal.grantStartedAtMs.Some? then startedMs == journal.grantStartedAtMs.value
    else journal.grantDeadlineMs.Some? && startedMs == journal.grantDeadlineMs.value - lifetimeMs
  }

  // A VM that is up in a journaled generation.
  predicate Running(journal: Journal, look: Look) {
    Present(look) && look.provider.vmStatus !in {VmAbsent, VmStopped} && journal.startCount > 0
  }

  // What the generation is charged on top of: what was spent when it was first seen.
  predicate ChargedFrom(journal: Journal, ledger: Ledger, baseMs: int) {
    baseMs == if ledger.generation == Some(journal.startCount) then ledger.runtimeBaselineMs else journal.cumulativeRuntimeMs
  }

  // The observed runtime covers the time since the generation started, is never lower than the journaled one, and is one
  // of the two. Without any start it covers a whole lifetime; a VM that is not up is not charged.
  lemma RuntimeExact(journal: Journal, ledger: Ledger, look: Look, baseMs: int, startedMs: int)
    requires ChargedFrom(journal, ledger, baseMs)
    requires StartsAt(journal, look.config.timing.lifetimeMs, startedMs)
             || (journal.grantStartedAtMs.None? && journal.grantDeadlineMs.None?
                 && startedMs == look.nowMs - look.config.timing.lifetimeMs && look.config.timing.lifetimeMs >= 0)
    ensures var (after, counted) := Advance(journal, ledger, look);
            if !Running(journal, look) then after.cumulativeRuntimeMs == journal.cumulativeRuntimeMs
            else
              && counted.generation == Some(journal.startCount) && counted.runtimeBaselineMs == baseMs
              && after.cumulativeRuntimeMs >= journal.cumulativeRuntimeMs
              && after.cumulativeRuntimeMs >= baseMs && after.cumulativeRuntimeMs >= baseMs + (look.nowMs - startedMs)
              && (after.cumulativeRuntimeMs in {journal.cumulativeRuntimeMs, baseMs, baseMs + (look.nowMs - startedMs)})
  {
  }

  // Two readings of one running generation: the second finds the runtime grown by exactly the time between them.
  lemma RuntimeBetween(journal: Journal, ledger: Ledger, first: Look, second: Look)
    requires journal.grantStartedAtMs.Some? && ChargedFrom(journal, ledger, journal.cumulativeRuntimeMs)
    requires Running(journal, first) && Running(journal, second)
    requires journal.grantStartedAtMs.value <= first.nowMs <= second.nowMs
    ensures var (seen, counted) := Advance(journal, ledger, first);
            && seen.cumulativeRuntimeMs == journal.cumulativeRuntimeMs + (first.nowMs - journal.grantStartedAtMs.value)
            && Advance(seen, counted, second).0.cumulativeRuntimeMs == seen.cumulativeRuntimeMs + (second.nowMs - first.nowMs)
            && Advance(journal, counted, second).0.cumulativeRuntimeMs == seen.cumulativeRuntimeMs + (second.nowMs - first.nowMs)
  {
  }

  // ---- egress ----

  predicate AllOfGeneration(row: seq<Reading>, generation: int) { forall k :: 0 <= k < |row| ==> row[k].journal.startCount == generation }

  // Readings of a generation that is already armed move neither its base nor its first counter.
  lemma {:induction false} StaysArmed(start: Ledger, row: seq<Reading>, generation: int)
    requires AllOfGeneration(row, generation) && start.generation == Some(generation)
    ensures var after := LedgerAfter(start, row);
            && after.generation == start.generation && after.networkBaselineBytes == start.networkBaselineBytes
            && after.networkGenerationStartBytes == start.networkGenerationStartBytes && after.runtimeBaselineMs == start.runtimeBaselineMs
  {
    if row != [] {
      StaysArmed(start, row[..|row| - 1], generation);
    }
  }

  // Bytes a reading stands for: what the guest's counter shows above its first value in the generation.
  predicate Shows(reading: Reading, start: Ledger, bytes: int) {
    && reading.look.guestEgressBytes.Some? && start.networkBaselineBytes.Some? && start.networkGenerationStartBytes.Some?
    && bytes == start.networkBaselineBytes.value + (reading.look.guestEgressBytes.value - start.networkGenerationStartBytes.value)
  }

  // The counted bytes of a generation are the most that any of its readings shows, and never fewer than before it.
  lemma {:induction false} EgressExact(start: Ledger, row: seq<Reading>, generation: int)
    requires AllOfGeneration(row, generation) && start.generation == Some(generation)
    requires start.networkBaselineBytes == Some(start.networkEgressBytes) && start.networkGenerationStartBytes.Some?
    ensures var total := LedgerAfter(start, row).networkEgressBytes;
            && total >= start.networkEgressBytes
            && (forall k, bytes :: 0 <= k < |row| && Shows(row[k], start, bytes) ==> total >= bytes)
            && (total == start.networkEgressBytes || exists k :: 0 <= k < |row| && Shows(row[k], start, total))
  {
    if row != [] {
      var n := |row| - 1;
      EgressExact(start, row[..n], generation);
      StaysArmed(start, row[..n], generation);
      assert forall k :: 0 <= k < n ==> row[..n][k] == row[k];
      var before, total := LedgerAfter(start, row[..n]).networkEgressBytes, LedgerAfter(start, row).networkEgressBytes;
      if total == before && before != start.networkEgressBytes {
        var k :| 0 <= k < n && Shows(row[..n][k], start, before);
        assert Shows(row[k], start, total);
      } else if total != before {
        assert Shows(row[n], start, total);
      }
    }
  }

  // A new generation counts on from the bytes so far. Its counter starts at what the guest shows, and for the first
  // generation ever counted at zero.
  lemma EgressArmed(journal: Journal, ledger: Ledger, look: Look)
    requires Running(journal, look) && ledger.generation != Some(journal.startCount)
    ensures var counted := Advance(journal, ledger, look).1;
            && counted.generation == Some(journal.startCount) && counted.runtimeBaselineMs == journal.cumulativeRuntimeMs
            && counted.networkBaselineBytes == Some(ledger.networkEgressBytes)
            && counted.networkGenerationStartBytes.Some?
            && (ledger.generation.None? && ledger.networkEgressBytes == 0 ==> counted.networkGenerationStartBytes == Some(0))
            && (ledger.generation.Some? && look.guestEgressBytes.Some? ==> counted.networkGenerationStartBytes == look.guestEgressBytes)
            && (ledger.generation.Some? ==> counted.networkEgressBytes == ledger.networkEgressBytes)
  {
  }

  // A VM that is not up, or the same generation, changes no base.
  lemma NotArmed(journal: Journal, ledger: Ledger, look: Look)
    requires !Running(journal, look) || ledger.generation == Some(journal.startCount)
    ensures var counted := Advance(journal, ledger, look).1;
            && counted.generation == ledger.generation && counted.runtimeBaselineMs == ledger.runtimeBaselineMs
            && counted.networkBaselineBytes == ledger.networkBaselineBytes
            && counted.networkGenerationStartBytes == ledger.networkGenerationStartBytes
  {
  }

  // ---- idle evidence ----

  // A complete reading of the journaled generation.
  predicate OfGenerationNow(journal: Journal, look: Look) {
    && look.queue.complete && look.queue.ownedBusy.Some? && look.guest.complete
    && look.guest.grant.Some? && look.guest.grant.value.generation == journal.startCount
  }

  predicate IdleNow(journal: Journal, look: Look) {
    OfGenerationNow(journal, look) && look.queue.ownedBusy == Some(false) && look.guest.status == Drained
  }

  // The last entry is an idle one of the journaled generation.
  predicate IdleSoFar(journal: Journal) {
    var past := journal.idleObservations;
    past != [] && past[|past| - 1].complete && past[|past| - 1].generation == journal.startCount
  }

  predicate SeenThisInstant(journal: Journal, nowMs: int) {
    var past := journal.idleObservations;
    past != [] && past[|past| - 1].observedAtMs == nowMs
  }

  // An idle reading is recorded as idle, one that ends a stretch of idleness as its end, and no other.
  lemma IdleExactly(journal: Journal, ledger: Ledger, look: Look)
    ensures var past, next := journal.idleObservations, Advance(journal, ledger, look).0.idleObservations;
            && (SeenThisInstant(journal, look.nowMs) ==> next == past)
            && (!SeenThisInstant(journal, look.nowMs) ==>
                  && (next == past + [IdleObservation(look.nowMs, true, journal.startCount)] <==> IdleNow(journal, look))
                  && (next == past + [IdleObservation(look.nowMs, false, journal.startCount)]
                      <==> OfGenerationNow(journal, look) && !IdleNow(journal, look) && IdleSoFar(journal))
                  && (next == past <==> !IdleNow(journal, look) && !(OfGenerationNow(journal, look) && IdleSoFar(journal))))
  {
    var past := journal.idleObservations;
    assert forall e :: past + [e] != past;
    assert past + [IdleObservation(look.nowMs, true, journal.startCount)] != past + [IdleObservation(look.nowMs, false, journal.startCount)] by {
      assert (past + [IdleObservation(look.nowMs, true, journal.startCount)])[|past|].complete;
    }
  }

  // After a reading of the generation that is not idle, no evidence of idleness is left.
  lemma NotIdleEndsEvidence(journal: Journal, ledger: Ledger, look: Look)
    requires OfGenerationNow(journal, look) && !IdleNow(journal, look) && !SeenThisInstant(journal, look.nowMs)
    requires var past := journal.idleObservations;
             && (forall i, k :: 0 <= i <= k < |past| ==> past[i].generation <= past[k].generation <= journal.startCount)
             && InTimeOrder(past) && (past != [] ==> past[|past| - 1].observedAtMs < look.nowMs)
    ensures Evidence(Advance(journal, ledger, look).0.idleObservations, journal.startCount, look.nowMs) == []
  {
    IdleExactly(journal, ledger, look);
    NoEvidenceLeft(Advance(journal, ledger, look).0.idleObservations, journal.startCount, look.nowMs);
  }

  lemma NoEvidenceLeft(s: seq<IdleObservation>, generation: int, nowMs: int)
    requires InTimeOrder(s)
    requires forall k :: 0 <= k < |s| ==> s[k].generation <= s[|s| - 1].generation <= generation
    requires s != [] && s[|s| - 1].generation == generation ==> !s[|s| - 1].complete && s[|s| - 1].observedAtMs <= nowMs
    ensures Evidence(s, generation, nowMs) == []
  {
    EvidenceInOrder(s, generation, nowMs);
    if s == [] || s[|s| - 1].generation < generation {
      NoneOfGeneration(s, generation, nowMs);
    }
  }

  lemma {:induction false} NoneOfGeneration(s: seq<IdleObservation>, generation: int, nowMs: int)
    requires forall k :: 0 <= k < |s| ==> s[k].generation != generation
    ensures OfGeneration(s, generation, nowMs) == []
  {
    if s != [] {
      NoneOfGeneration(s[..|s| - 1], generation, nowMs);
    }
  }

  // ---- the first reading ----

  // Accounting begins with the first reading. An owned VM counts from then on, or from its journaled creation; one that
  // nothing is known of is refused.
  lemma FirstReading(prior: Option<State>, look: Look)
    ensures ReadLedger(None, prior, look).None? <==> Present(look) && prior.None?
    ensures var known := ReadLedger(None, prior, look);
            known.Some? ==>
              && known.value.diskRetainedMs == 0 && known.value.networkEgressBytes == 0 && known.value.generation.None?
              && (known.value.diskStartedAtMs.Some? <==> Present(look))
              && known.value.runtimeBaselineMs == (if prior.Some? then prior.value.lifecycle.cumulativeRuntimeMs else 0)
              && (Present(look) && prior.value.pendingEffect.Some? && prior.value.pendingEffect.value.effect.CreateVm? ==>
                    known.value.diskStartedAtMs == Some(prior.value.pendingEffect.value.createdAtMs))
              && (Present(look) && !(prior.value.pendingEffect.Some? && prior.value.pendingEffect.value.effect.CreateVm?) ==>
                    known.value.diskStartedAtMs == Some(look.nowMs))
    ensures forall ledger: Ledger :: ReadLedger(Some(ledger), prior, look) == Some(ledger)
  {
  }

  // A controller without a journal begins with nothing spent, granted or waited for, in the state the VM is in.
  lemma FirstJournal(look: Look)
    ensures var journal := SavedJournal(None, look);
            && journal.startCount == 0 && journal.cumulativeRuntimeMs == 0 && journal.cumulativeCostUsd == 0.0
            && journal.idleObservations == [] && journal.outstandingIntent.None? && journal.capacityWait.None?
            && journal.grantDeadlineMs.None? && journal.grantStartedAtMs.None?
            && (journal.state == Absent <==> look.provider.vmStatus == VmAbsent)
            && (journal.state == Stopped <==> look.provider.vmStatus == VmStopped)
            && (journal.state == Blocked <==> look.provider.vmStatus !in {VmAbsent, VmStopped})
  {
  }
}
