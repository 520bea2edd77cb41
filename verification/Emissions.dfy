/** Every journaled effect reaches the provider at most once, and only after its emitting record is durable. */
module Emissions {
  import opened Contracts
  import opened Controller
  import opened Journaling

  // Provider calls made since an effect was last journaled as an intent.
  function EmitsSinceIntent(log: seq<Step>): nat {
    if log == [] then 0
    else
      match log[|log| - 1]
      case Emit(_, _) => EmitsSinceIntent(log[..|log| - 1]) + 1
      case Save(kind, _) => if kind == IntentSave then 0 else EmitsSinceIntent(log[..|log| - 1])
  }

  // The effect most recently journaled as an intent.
  function LastIntent(log: seq<Step>): Option<PendingEffect> {
    if log == [] then None
    else if log[|log| - 1].Save? && log[|log| - 1].kind == IntentSave then log[|log| - 1].state.pendingEffect
    else LastIntent(log[..|log| - 1])
  }

  predicate SameEffect(p: PendingEffect, q: PendingEffect) {
    p.id == q.id && p.effect == q.effect && p.createdAtMs == q.createdAtMs && p.authorization == q.authorization
  }

  predicate Follows(s: State, log: seq<Step>) {
    s.pendingEffect.Some? ==> LastIntent(log).Some? && SameEffect(s.pendingEffect.value, LastIntent(log).value)
  }

  predicate IsSave(step: Step, kind: SaveKind) { step.Save? && step.kind == kind }

  predicate Emitting(s: State) { s.pendingEffect.Some? && s.pendingEffect.value.stage == EmittingStage }

  predicate EmissionInv(log: seq<Step>) {
    var j, n := JournalOf(log), |log|;
    && EmitsSinceIntent(log) <= 1
    && (j.Some? ==> Follows(j.value, log))
    && (HasPending(j) && j.value.pendingEffect.value.stage == IntentStage ==> EmitsSinceIntent(log) == 0)
    && (n > 0 && IsSave(log[n - 1], EmittingSave) ==> EmitsSinceIntent(log) == 0 && Emitting(log[n - 1].state))
    && (n > 0 && log[n - 1].Emit? ==>
          && n > 1 && j.Some? && Emitting(j.value) && log[n - 2] == Save(EmittingSave, j.value)
          && log[n - 1].effect == j.value.pendingEffect.value.effect)
    && (n > 2 && IsSave(log[n - 1], ResultSave) && log[n - 2].Emit? && IsSave(log[n - 3], EmittingSave) ==>
          && Follows(log[n - 3].state, log) && Emitting(log[n - 3].state)
          && log[n - 2].effect == log[n - 3].state.pendingEffect.value.effect)
  }

  predicate NeverRetries(env: Environment) { env.reconcile.Reconciled? ==> !env.reconcile.retry }

  lemma StepKeepsEmissions(first: bool, log: seq<Step>, step: Step, input: Input, env: Environment)
    requires EmissionInv(log) && Legal(first, log, step, input, env) && NeverRetries(env)
    ensures EmissionInv(log + [step])
  {
    var longer := log + [step];
    JournalOfSnoc(log, step);
    EmissionsSnoc(log, step);
    if step.Save? {
      SaveFollows(first, log, step.kind, step.state, input, env);
    }
    if IsSave(step, ResultSave) {
      assert longer[|longer| - 2] == log[|log| - 1] && longer[|longer| - 3] == log[|log| - 2];
    }
  }

  lemma EmissionsSnoc(log: seq<Step>, step: Step)
    ensures EmitsSinceIntent(log + [step])
            == (if step.Emit? then EmitsSinceIntent(log) + 1 else if step.kind == IntentSave then 0 else EmitsSinceIntent(log))
    ensures LastIntent(log + [step]) == (if IsSave(step, IntentSave) then step.state.pendingEffect else LastIntent(log))
  {
    assert (log + [step])[..|log|] == log;
  }

  // A write keeps the journaled effect, drops it or journals a new one, and only an unemitted one is at the intent stage.
  lemma SaveFollows(first: bool, log: seq<Step>, kind: SaveKind, s: State, input: Input, env: Environment)
    requires EmissionInv(log) && LegalSave(first, log, kind, s, input, env) && NeverRetries(env)
    ensures kind != IntentSave ==> Follows(s, log)
    ensures kind == EmittingSave ==> EmitsSinceIntent(log) == 0 && Emitting(s)
    ensures s.pendingEffect.Some? && s.pendingEffect.value.stage == IntentStage && kind != IntentSave ==> EmitsSinceIntent(log) == 0
  {
  }

  // In a log all of whose prefixes keep the invariant, a provider call answers the last journaled intent,
  // is the first to do so, and directly follows its durable emitting record.
  lemma EmittedOnce(log: seq<Step>, at: nat)
    requires at < |log| && log[at].Emit?
    requires forall k :: 0 <= k <= |log| ==> EmissionInv(log[..k])
    ensures EmitsSinceIntent(log[..at]) == 0
    ensures LastIntent(log[..at]).Some? && LastIntent(log[..at]).value.effect == log[at].effect
    ensures at > 0 && IsSave(log[at - 1], EmittingSave)
    ensures log[at - 1].state.pendingEffect.Some? && SameEffect(log[at - 1].state.pendingEffect.value, LastIntent(log[..at]).value)
  {
    var upTo := log[..at + 1];
    assert EmissionInv(upTo) && EmissionInv(log[..at]);
    assert upTo == log[..at] + [log[at]];
    JournalOfSnoc(log[..at], log[at]);
    assert upTo[|upTo| - 1] == log[at] && upTo[|upTo| - 2] == log[at - 1];
    assert log[..at][|log[..at]| - 1] == log[at - 1];
  }
}
