/** The runtime budget over a whole run: overruns past a grant deadline do not add up across generations. */
module Runtime {
  import opened Contracts
  import opened Lifecycle
  import opened Controller
  import opened Accounting
  import opened Journaling
  import opened Invariants

  function Spent(j: Option<State>): int {
    if j.Some? then j.value.lifecycle.cumulativeRuntimeMs else 0
  }

  // What the current generation's runtime is counted from.
  function Base(journal: Journal, ledger: Option<Ledger>): int {
    if ledger.Some? && ledger.value.generation == Some(journal.startCount)
    then ledger.value.runtimeBaselineMs else journal.cumulativeRuntimeMs
  }

  predicate GrantFits(journal: Journal, ledger: Option<Ledger>, maxRuntimeMs: int) {
    journal.grantStartedAtMs.Some? && journal.grantDeadlineMs.Some? ==>
      Base(journal, ledger) + (journal.grantDeadlineMs.value - journal.grantStartedAtMs.value) <= maxRuntimeMs
  }

  predicate RuntimeInv(j: Option<State>, ledger: Option<Ledger>, maxRuntimeMs: int, overrunMs: int) {
    && Spent(j) <= maxRuntimeMs + overrunMs
    && (ledger.Some? ==> ledger.value.runtimeBaselineMs <= Spent(j))
    && (j.Some? ==> GrantFits(j.value.lifecycle, ledger, maxRuntimeMs))
  }

  // The VM is seen up only under a journaled grant, at most overrunMs past its deadline.
  predicate SeenUnderGrant(j: Option<State>, look: Look, overrunMs: int) {
    ProviderUp(look.provider) && j.Some? && j.value.lifecycle.startCount > 0 ==>
      && j.value.lifecycle.grantStartedAtMs.Some? && j.value.lifecycle.grantDeadlineMs.Some?
      && look.nowMs - j.value.lifecycle.grantDeadlineMs.value <= overrunMs
  }

  // What a reading charges: within the bound, and only to the generation the ledger counts.
  predicate Charged(j: Option<State>, ledger: Ledger, input: Input, bound: int) {
    && Spent(j) <= input.journal.cumulativeRuntimeMs <= bound
    && (input.journal.cumulativeRuntimeMs > Spent(j) ==> ledger.generation == Some(input.journal.startCount))
  }

  lemma ObservationCharges(j: Option<State>, ledger: Option<Ledger>, look: Look, maxRuntimeMs: int, overrunMs: nat)
    requires RuntimeInv(j, ledger, maxRuntimeMs, overrunMs) && SeenUnderGrant(j, look, overrunMs)
    requires j.Some? ==> Parse(j.value) == Some(j.value)
    requires Observe(j, ledger, look).Some?
    ensures var (input, counted) := Observe(j, ledger, look).value;
            RuntimeInv(j, Some(counted), maxRuntimeMs, overrunMs) && Charged(j, counted, input, maxRuntimeMs + overrunMs)
  {
  }

  predicate SameGrant(a: Journal, b: Journal) {
    a.startCount == b.startCount && a.grantStartedAtMs == b.grantStartedAtMs && a.grantDeadlineMs == b.grantDeadlineMs
  }

  // A newly armed grant lasts no longer than the runtime the permit has left.
  predicate FreshGrant(journal: Journal, maxRuntimeMs: int) {
    && journal.grantStartedAtMs.Some? && journal.grantDeadlineMs.Some?
    && journal.grantDeadlineMs.value - journal.grantStartedAtMs.value <= maxRuntimeMs - journal.cumulativeRuntimeMs
  }

  lemma IntentGrant(prior: Option<State>, s: State, input: Input, maxRuntimeMs: int)
    requires Honest(input) && LegalIntent(prior, s, input)
    requires input.permit.Some? ==> input.permit.value.maxRuntimeMs == maxRuntimeMs
    ensures s.lifecycle.cumulativeRuntimeMs == input.journal.cumulativeRuntimeMs
    ensures s.lifecycle.grantStartedAtMs.None? || FreshGrant(s.lifecycle, maxRuntimeMs) || SameGrant(s.lifecycle, input.journal)
  {
    if !HasPending(prior) {
      var decided := input.(journal := BaseJournal(prior, input));
      if DecideLifecycle(decided).effect.StartVm? {
        StartWithinBudget(decided);
      }
    }
  }

  // The writes that read nothing new keep the runtime, and keep the grant or drop it.
  lemma OtherGrant(first: bool, log: seq<Step>, kind: SaveKind, s: State, input: Input, env: Environment)
    requires AllGood(log) && LegalSave(first, log, kind, s, input, env)
    requires kind != IntentSave && kind != ObservedSave
    ensures var prior := JournalOf(log);
            && prior.Some?
            && (|| s.lifecycle.cumulativeRuntimeMs == Spent(prior)
                || (first && s.lifecycle.cumulativeRuntimeMs == input.journal.cumulativeRuntimeMs))
            && (s.lifecycle.grantStartedAtMs.None? || SameGrant(s.lifecycle, prior.value.lifecycle))
            && (s.lifecycle.cumulativeRuntimeMs == Spent(prior) || s.lifecycle.grantStartedAtMs.None?)
  {
    GoodJournal(log);
    if kind == AmbiguousSave && LateFailure(log, s) {
      assert JournalOf(log) == Some(log[|log| - 1].state);
    }
  }

  lemma SaveKeepsRuntime(first: bool, log: seq<Step>, kind: SaveKind, s: State, input: Input, env: Environment,
                         ledger: Ledger, maxRuntimeMs: int, overrunMs: nat)
    requires RuntimeInv(JournalOf(log), Some(ledger), maxRuntimeMs, overrunMs) && AllGood(log) && Honest(input)
    requires first ==> Charged(JournalOf(log), ledger, input, maxRuntimeMs + overrunMs)
    requires LegalSave(first, log, kind, s, input, env)
    requires input.permit.Some? ==> input.permit.value.maxRuntimeMs == maxRuntimeMs
    ensures RuntimeInv(Some(s), Some(ledger), maxRuntimeMs, overrunMs)
  {
    var prior := JournalOf(log);
    if kind == IntentSave {
      IntentGrant(prior, s, input, maxRuntimeMs);
    } else if kind != ObservedSave {
      OtherGrant(first, log, kind, s, input, env);
    }
  }

  lemma StepKeepsRuntime(first: bool, log: seq<Step>, step: Step, input: Input, env: Environment,
                         ledger: Ledger, maxRuntimeMs: int, overrunMs: nat)
    requires RuntimeInv(JournalOf(log), Some(ledger), maxRuntimeMs, overrunMs) && AllGood(log) && Honest(input)
    requires first ==> Charged(JournalOf(log), ledger, input, maxRuntimeMs + overrunMs)
    requires Legal(first, log, step, input, env)
    requires input.permit.Some? ==> input.permit.value.maxRuntimeMs == maxRuntimeMs
    ensures RuntimeInv(JournalOf(log + [step]), Some(ledger), maxRuntimeMs, overrunMs)
  {
    JournalOfSnoc(log, step);
    if step.Save? {
      SaveKeepsRuntime(first, log, step.kind, step.state, input, env, ledger, maxRuntimeMs, overrunMs);
    }
  }

  // ---- counters never go back ----

  lemma SpendingNeverFalls(first: bool, log: seq<Step>, kind: SaveKind, s: State, input: Input, env: Environment)
    requires LegalSave(first, log, kind, s, input, env) && JournalOf(log).Some?
    ensures s.lifecycle.cumulativeRuntimeMs >= JournalOf(log).value.lifecycle.cumulativeRuntimeMs
    ensures s.lifecycle.cumulativeCostUsd >= JournalOf(log).value.lifecycle.cumulativeCostUsd
  {
    if kind == AmbiguousSave && LateFailure(log, s) {
      assert JournalOf(log) == Some(log[|log| - 1].state);
    }
  }
}
