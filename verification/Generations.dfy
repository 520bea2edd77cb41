/** Start generations over a whole run: a refused generation is handed back and reused. */
module Generations {
  import opened Contracts
  import opened Lifecycle
  import opened Controller
  import opened Journaling
  import opened Invariants

  function StartCount(log: seq<Step>): int {
    var j := JournalOf(log);
    if j.Some? then j.value.lifecycle.startCount else 0
  }

  predicate PendingStart(j: Option<State>) { HasPending(j) && j.value.pendingEffect.value.effect.StartVm? }

  // The generations of the start intents journaled so far, without those refused for capacity.
  function Unrefused(log: seq<Step>): seq<int> {
    if log == [] then []
    else
      var init, last := log[..|log| - 1], log[|log| - 1];
      var before := Unrefused(init);
      if last.Emit? then before
      else if last.kind == IntentSave && PendingStart(Some(last.state)) then
        before + [last.state.pendingEffect.value.effect.generation]
      else if last.kind == WaitingSave && PendingStart(JournalOf(init)) && before != [] then before[..|before| - 1]
      else before
  }

  // Start intents journaled, and starts refused for capacity.
  function StartIntents(log: seq<Step>): nat {
    if log == [] then 0
    else
      var last := log[|log| - 1];
      StartIntents(log[..|log| - 1])
      + if last.Save? && last.kind == IntentSave && PendingStart(Some(last.state)) then 1 else 0
  }

  function RefusedStarts(log: seq<Step>): nat {
    if log == [] then 0
    else
      var init, last := log[..|log| - 1], log[|log| - 1];
      RefusedStarts(init) + if last.Save? && last.kind == WaitingSave && PendingStart(JournalOf(init)) then 1 else 0
  }

  function Upto(n: nat): seq<int> { seq(n, i => i + 1) }

  predicate GenerationInv(log: seq<Step>) {
    && StartCount(log) >= 0
    && Unrefused(log) == Upto(StartCount(log))
    && StartCount(log) == StartIntents(log) - RefusedStarts(log)
  }

  lemma IntentMovesCount(prior: Option<State>, s: State, input: Input)
    requires Honest(input) && LegalIntent(prior, s, input)
    ensures var before := if prior.Some? then prior.value.lifecycle.startCount else 0;
            if PendingStart(Some(s)) then
              && s.lifecycle.startCount == s.pendingEffect.value.effect.generation == before + 1
              && input.permit.Some? && before + 1 <= input.permit.value.maxStarts
            else s.lifecycle.startCount == before
  {
    if !HasPending(prior) {
      var decided := input.(journal := BaseJournal(prior, input));
      if DecideLifecycle(decided).effect.StartVm? {
        StartWithinBudget(decided);
      }
    }
  }

  // How a durable write moves the start count.
  lemma StartCountMoves(first: bool, log: seq<Step>, kind: SaveKind, s: State, input: Input, env: Environment)
    requires AllGood(log) && Honest(input) && LegalSave(first, log, kind, s, input, env)
    ensures s.lifecycle.startCount
            == (if kind == IntentSave && PendingStart(Some(s)) then StartCount(log) + 1
                else if kind == WaitingSave && PendingStart(JournalOf(log)) then StartCount(log) - 1
                else StartCount(log))
    ensures kind == IntentSave && PendingStart(Some(s)) ==>
              s.pendingEffect.value.effect.generation == StartCount(log) + 1
              && input.permit.Some? && StartCount(log) + 1 <= input.permit.value.maxStarts
    ensures kind == WaitingSave && PendingStart(JournalOf(log)) ==> StartCount(log) >= 1
  {
    GoodJournal(log);
    var prior := JournalOf(log);
    if kind == IntentSave {
      IntentMovesCount(prior, s, input);
    } else if kind == AmbiguousSave {
      if LateFailure(log, s) {
        assert prior == Some(log[|log| - 1].state);
      }
    } else if kind != ObservedSave && kind != DirectStopSave {
      MoveMovesCount(first, log, prior.value, kind, s, input, env);
    }
  }

  lemma MoveMovesCount(first: bool, log: seq<Step>, prior: State, kind: SaveKind, s: State, input: Input, env: Environment)
    requires prior.pendingEffect.Some? && GoodState(prior) && LegalMove(first, log, prior, kind, s, input, env)
    ensures s.lifecycle.startCount == prior.lifecycle.startCount - (if kind == WaitingSave && PendingStart(Some(prior)) then 1 else 0)
    ensures kind == WaitingSave && PendingStart(Some(prior)) ==> prior.lifecycle.startCount >= 1
    ensures kind != IntentSave
  {
  }

  lemma UptoSteps(n: nat)
    ensures Upto(n + 1) == Upto(n) + [n + 1]
    ensures n > 0 ==> Upto(n) != [] && Upto(n)[..n - 1] == Upto(n - 1)
  {
  }

  // How one step changes the three counts of the invariant.
  lemma GenerationsSnoc(log: seq<Step>, step: Step)
    ensures var longer, before := log + [step], Unrefused(log);
            var started := step.Save? && step.kind == IntentSave && PendingStart(Some(step.state));
            var refused := step.Save? && step.kind == WaitingSave && PendingStart(JournalOf(log));
            && StartIntents(longer) == StartIntents(log) + (if started then 1 else 0)
            && RefusedStarts(longer) == RefusedStarts(log) + (if refused then 1 else 0)
            && (step.Emit? ==> StartCount(longer) == StartCount(log))
            && (step.Save? ==> StartCount(longer) == step.state.lifecycle.startCount)
            && Unrefused(longer) == if started then before + [step.state.pendingEffect.value.effect.generation]
                                    else if refused && before != [] then before[..|before| - 1] else before
  {
    assert (log + [step])[..|log|] == log;
    JournalOfSnoc(log, step);
  }

  lemma StepKeepsGenerations(first: bool, log: seq<Step>, step: Step, input: Input, env: Environment)
    requires GenerationInv(log) && AllGood(log) && Honest(input) && Legal(first, log, step, input, env)
    ensures GenerationInv(log + [step])
  {
    GenerationsSnoc(log, step);
    if step.Save? {
      StartCountMoves(first, log, step.kind, step.state, input, env);
      UptoSteps(StartCount(log));
    }
  }

  // Under permits that all allow `maxStarts`, no journal ever counts more starts.
  lemma StepKeepsCap(first: bool, log: seq<Step>, step: Step, input: Input, env: Environment, maxStarts: int)
    requires StartCount(log) <= maxStarts && AllGood(log) && Honest(input) && Legal(first, log, step, input, env)
    requires input.permit.Some? ==> input.permit.value.maxStarts == maxStarts
    ensures StartCount(log + [step]) <= maxStarts
  {
    JournalOfSnoc(log, step);
    if step.Save? {
      StartCountMoves(first, log, step.kind, step.state, input, env);
    }
  }
}
