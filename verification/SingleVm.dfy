/**
 At most one owned VM exists, over any interleaving of observations, durable steps of ticks, crashes, stops journaled
 outside the tick and delayed provider operations, which may also move between two steps of one tick.
 The environment: a complete observation is accurate when it is made, only this controller creates, a create operation
 that has not landed by its deadline never lands, an accepted create is resolved by a later readback only, readbacks of
 a pending create are accurate, and reconciliation never asks for a retry.
 */
module SingleVm {
  import opened Contracts
  import opened Lifecycle
  import opened Controller
  import opened Journaling
  import opened Invariants
  import opened Emissions

  // A tick under way: what it observed, what the provider answers it, and the steps it has yet to perform.
  datatype Running = Running(first: bool, input: Input, env: Environment, rest: seq<Step>, dispatched: bool)

  // The durable log, the observation held in memory, the tick under way, the provider's VMs and its dispatched creates.
  datatype System = System(log: seq<Step>, held: Option<Input>, run: Option<Running>, clock: int, vms: nat, creates: seq<int>)

  predicate CreatePending(j: Option<State>) { HasPending(j) && j.value.pendingEffect.value.effect.CreateVm? }

  // A dispatched create that may still land.
  ghost predicate InFlight(creates: seq<int>, clock: int) {
    exists i :: 0 <= i < |creates| && creates[i] >= clock
  }

  predicate SaysAbsent(input: Input) { input.provider.complete && ProvenAbsent(input.provider) }

  // Replies are accurate for a pending create: resolved means its VM is there, refused that its operation failed.
  ghost predicate AccurateReplies(s: System, env: Environment) {
    env.reconcile.Reconciled? && CreatePending(JournalOf(s.log)) ==>
      && (env.reconcile.resolved ==> s.vms > 0)
      && (env.reconcile.capacityRefusal.Some? ==> !InFlight(s.creates, s.clock))
  }

  // A refused create dispatches nothing; an accepted one is only ever resolved by a later readback.
  predicate CreatesUnresolved(step: Step) {
    step.Emit? && step.effect.CreateVm? && step.reply.ExecReturned? ==> !step.reply.resolved
  }

  function DispatchOf(step: Step, dispatched: bool): seq<int> {
    if step.Emit? && step.effect.CreateVm? && !step.reply.ExecRefused? && dispatched then [step.effect.deadlineMs] else []
  }

  // ---- the transitions ----

  ghost predicate Observes(s: System, t: System) {
    s.run.None? && t.held.Some? && t == s.(held := t.held)
    && var input := t.held.value;
       && input.nowMs <= s.clock && Honest(input) && SeenAfter(JournalOf(s.log), input)
       && (SaysAbsent(input) ==> s.vms == 0)
  }

  ghost predicate Begins(s: System, t: System) {
    exists env, dryRun, dispatched :: BeginsWith(s, t, env, dryRun, dispatched)
  }

  // A tick begins with the readback of what is pending; its steps follow one by one.
  ghost predicate BeginsWith(s: System, t: System, env: Environment, dryRun: bool, dispatched: bool) {
    && s.run.None? && s.held.Some? && ReadableRefusals(env) && NeverRetries(env) && AccurateReplies(s, env)
    && var plan := TickPlan(JournalOf(s.log), s.held.value, env, dryRun).steps;
       && NeverResolvedAtOnce(plan)
       && t == s.(held := None, run := Some(Running(true, s.held.value, env, plan, dispatched)))
  }

  // The next durable step of the tick under way.
  predicate Steps(s: System, t: System) {
    && s.run.Some? && s.run.value.rest != []
    && var run := s.run.value;
       var step := run.rest[0];
       t == s.(log := s.log + [step], creates := s.creates + DispatchOf(step, run.dispatched),
               run := Some(run.(first := false, rest := run.rest[1..])))
  }

  // A stop emitted outside the tick, after an observation of its own, is noted in the journal.
  ghost predicate StopsOutside(s: System, t: System) {
    exists input :: StopsOutsideOn(s, t, input)
  }

  ghost predicate StopsOutsideOn(s: System, t: System, input: Input) {
    && s.run.None? && Honest(input) && input.nowMs <= s.clock
    && JournalOf(s.log).Some? && GuestUp(JournalOf(s.log).value.lifecycle.state)
    && t == s.(log := s.log + [Save(DirectStopSave, DirectlyStopped(JournalOf(s.log).value))], held := None)
  }

  predicate ProviderMoves(s: System, t: System) {
    || (t == s.(clock := t.clock) && s.clock <= t.clock)
    || (s.vms > 0 && t == s.(vms := s.vms - 1))
    || (exists i :: 0 <= i < |s.creates| && LandsOrFails(s, t, i))
  }

  predicate LandsOrFails(s: System, t: System, i: nat)
    requires i < |s.creates|
  {
    var rest := s.creates[..i] + s.creates[i + 1..];
    || (s.creates[i] >= s.clock && t == s.(vms := s.vms + 1, creates := rest))
    || t == s.(creates := rest)
  }

  // A tick ends, or the process dies, with whatever steps it has performed.
  predicate Ends(s: System, t: System) { t == s.(held := None, run := None) }

  ghost predicate Next(s: System, t: System) {
    Observes(s, t) || Begins(s, t) || Steps(s, t) || Ends(s, t) || StopsOutside(s, t) || ProviderMoves(s, t)
  }

  ghost predicate Behaviour(b: seq<System>) {
    && b != [] && b[0] == System([], None, None, 0, 0, [])
    && forall k :: 0 <= k < |b| - 1 ==> Next(b[k], b[k + 1])
  }

  // ---- the invariant ----

  // Nothing exists at the provider and nothing can still appear.
  ghost predicate Nothing(vms: nat, creates: seq<int>, clock: int) { vms == 0 && !InFlight(creates, clock) }

  ghost predicate AtMostOneInFlight(creates: seq<int>, clock: int) {
    forall i, k :: 0 <= i < k < |creates| ==> creates[i] < clock || creates[k] < clock
  }

  // An operation in flight belongs to the pending create, which has not been resolved yet.
  ghost predicate FlightJournaled(log: seq<Step>, creates: seq<int>, clock: int) {
    InFlight(creates, clock) ==>
      && CreatePending(JournalOf(log))
      && var pending := JournalOf(log).value.pendingEffect.value;
         && pending.stage == EmittingStage
         && (forall i :: 0 <= i < |creates| && creates[i] >= clock ==> creates[i] == pending.effect.deadlineMs)
  }

  predicate LastRefusedCreate(log: seq<Step>) {
    log != [] && log[|log| - 1].Emit? && log[|log| - 1].effect.CreateVm? && log[|log| - 1].reply.ExecRefused?
  }

  predicate NotYetEmitted(log: seq<Step>) {
    CreatePending(JournalOf(log)) && (JournalOf(log).value.pendingEffect.value.stage == IntentStage || IsSave(log[|log| - 1], EmittingSave))
  }

  predicate NeverResolvedAtOnce(log: seq<Step>) { forall k :: 0 <= k < |log| ==> CreatesUnresolved(log[k]) }

  ghost predicate CreateInv(log: seq<Step>, vms: nat, creates: seq<int>, clock: int) {
    && AllGood(log) && EmissionInv(log) && NeverResolvedAtOnce(log)
    && vms <= 1 && AtMostOneInFlight(creates, clock) && (InFlight(creates, clock) ==> vms == 0)
    && FlightJournaled(log, creates, clock)
    && (log != [] && NotYetEmitted(log) ==> Nothing(vms, creates, clock))
    && (LastRefusedCreate(log) ==> Nothing(vms, creates, clock))
  }

  // An accurate absent reading without a pending create proves there is nothing at the provider.
  ghost predicate HeldInv(s: System) {
    s.held.Some? ==>
      && s.run.None? && s.held.value.nowMs <= s.clock && Honest(s.held.value) && SeenAfter(JournalOf(s.log), s.held.value)
      && (SaysAbsent(s.held.value) && !CreatePending(JournalOf(s.log)) ==> Nothing(s.vms, s.creates, s.clock))
  }

  // What is left of the tick under way is a legal path, and it may still rely on what was read.
  ghost predicate RunInv(s: System) {
    s.run.Some? ==>
      var run := s.run.value;
      && LegalPath(run.first, s.log, run.rest, run.input, run.env) && NeverResolvedAtOnce(run.rest)
      && Informed(run.first, s.log, s.vms, s.creates, s.clock, run.input, run.env)
  }

  ghost predicate SystemInv(s: System) {
    CreateInv(s.log, s.vms, s.creates, s.clock) && HeldInv(s) && RunInv(s)
  }

  // ---- one durable step ----

  // What the step may rely on: the observation is no younger than the clock, an absent reading without a pending
  // create means there is nothing, and a create read back as resolved or refused is no longer in flight. The provider
  // cannot undo any of it.
  ghost predicate Informed(first: bool, log: seq<Step>, vms: nat, creates: seq<int>, clock: int, input: Input, env: Environment) {
    && input.nowMs <= clock && Honest(input) && ReadableRefusals(env) && NeverRetries(env)
    && (first && SaysAbsent(input) && !CreatePending(JournalOf(log)) ==> Nothing(vms, creates, clock))
    && (first && env.reconcile.Reconciled? && CreatePending(JournalOf(log)) ==>
          (env.reconcile.resolved || env.reconcile.capacityRefusal.Some? ==> !InFlight(creates, clock)))
  }

  lemma NewCreateIsFromAbsence(prior: Option<State>, s: State, input: Input)
    requires LegalIntent(prior, s, input) && CreatePending(Some(s))
    ensures SaysAbsent(input) && !HasPending(prior)
  {
    if !HasPending(prior) {
      CreateOnlyWhenAbsent(input.(journal := BaseJournal(prior, input)));
    }
  }

  // After a durable write, what is in flight is still journaled, and an unemitted create still has nothing behind it.
  lemma SaveKeepsFlight(first: bool, log: seq<Step>, kind: SaveKind, s: State, input: Input, env: Environment,
                        vms: nat, creates: seq<int>, clock: int)
    requires CreateInv(log, vms, creates, clock) && Informed(first, log, vms, creates, clock, input, env)
    requires LegalSave(first, log, kind, s, input, env)
    ensures InFlight(creates, clock) ==>
              && CreatePending(Some(s)) && s.pendingEffect.value.stage == EmittingStage
              && CreatePending(JournalOf(log)) && s.pendingEffect.value.effect == JournalOf(log).value.pendingEffect.value.effect
    ensures CreatePending(Some(s)) && (s.pendingEffect.value.stage == IntentStage || kind == EmittingSave) ==> Nothing(vms, creates, clock)
  {
    GoodJournal(log);
    var prior := JournalOf(log);
    if kind == IntentSave {
      if CreatePending(Some(s)) {
        NewCreateIsFromAbsence(prior, s, input);
      }
    } else if kind == AmbiguousSave {
      if LateFailure(log, s) {
        LateFailureResurrects(log, s);
      }
    } else if HasPending(prior) && LegalMove(first, log, prior.value, kind, s, input, env) {
      MoveKeepsFlight(first, log, prior.value, kind, s, input, env, vms, creates, clock);
    }
  }

  lemma LateFailureResurrects(log: seq<Step>, s: State)
    requires EmissionInv(log) && LateFailure(log, s) && NeverResolvedAtOnce(log) && AllGood(log)
    ensures CreatePending(Some(s)) ==>
              && s.pendingEffect.value.stage == EmittingStage && CreatePending(JournalOf(log))
              && JournalOf(log).value.pendingEffect.value.effect == s.pendingEffect.value.effect
    ensures CreatePending(JournalOf(log)) ==> CreatePending(Some(s))
  {
    var emit, emitting := log[|log| - 2], log[|log| - 3].state;
    assert CreatesUnresolved(emit);
    assert JournalOf(log) == Some(log[|log| - 1].state);
  }

  lemma MoveKeepsFlight(first: bool, log: seq<Step>, prior: State, kind: SaveKind, s: State, input: Input, env: Environment,
                        vms: nat, creates: seq<int>, clock: int)
    requires CreateInv(log, vms, creates, clock) && Informed(first, log, vms, creates, clock, input, env)
    requires JournalOf(log) == Some(prior) && prior.pendingEffect.Some? && LegalMove(first, log, prior, kind, s, input, env)
    ensures InFlight(creates, clock) ==>
              && CreatePending(Some(s)) && s.pendingEffect.value.stage == EmittingStage
              && CreatePending(Some(prior)) && s.pendingEffect.value.effect == prior.pendingEffect.value.effect
    ensures CreatePending(Some(s)) && (s.pendingEffect.value.stage == IntentStage || kind == EmittingSave) ==> Nothing(vms, creates, clock)
  {
    GoodJournal(log);
    if kind == ResultSave {
      assert CreatesUnresolved(log[|log| - 1]);
    }
  }

  lemma StepKeepsCreates(first: bool, log: seq<Step>, step: Step, input: Input, env: Environment,
                         vms: nat, creates: seq<int>, clock: int, dispatched: bool)
    requires CreateInv(log, vms, creates, clock) && Informed(first, log, vms, creates, clock, input, env)
    requires Legal(first, log, step, input, env) && CreatesUnresolved(step)
    ensures CreateInv(log + [step], vms, creates + DispatchOf(step, dispatched), clock)
  {
    StepIsGood(first, log, step, input, env);
    StepKeepsEmissions(first, log, step, input, env);
    JournalOfSnoc(log, step);
    var longer := log + [step];
    assert NeverResolvedAtOnce(longer);
    if step.Save? {
      assert creates + DispatchOf(step, dispatched) == creates;
      SaveKeepsFlight(first, log, step.kind, step.state, input, env, vms, creates, clock);
    } else {
      EmitKeepsFlight(log, step, vms, creates, clock, dispatched);
    }
  }

  lemma EmitKeepsFlight(log: seq<Step>, step: Step, vms: nat, creates: seq<int>, clock: int, dispatched: bool)
    requires CreateInv(log, vms, creates, clock) && step.Emit?
    requires log != [] && IsSave(log[|log| - 1], EmittingSave) && log[|log| - 1].state.pendingEffect.Some?
    requires step.effect == log[|log| - 1].state.pendingEffect.value.effect
    ensures var later := creates + DispatchOf(step, dispatched);
            && AtMostOneInFlight(later, clock) && (InFlight(later, clock) ==> vms == 0)
            && FlightJournaled(log + [step], later, clock)
            && (LastRefusedCreate(log + [step]) ==> Nothing(vms, later, clock))
            && (NotYetEmitted(log + [step]) ==> Nothing(vms, later, clock))
  {
    JournalOfSnoc(log, step);
    var later := creates + DispatchOf(step, dispatched);
    if step.effect.CreateVm? {
      assert Nothing(vms, creates, clock);
      assert forall i :: 0 <= i < |creates| ==> creates[i] < clock;
    } else {
      assert later == creates;
    }
  }

  // ---- the transitions keep the invariant ----

  lemma BeginKeepsInv(s: System, t: System, env: Environment, dryRun: bool, dispatched: bool)
    requires SystemInv(s) && BeginsWith(s, t, env, dryRun, dispatched)
    ensures SystemInv(t)
  {
    GoodJournal(s.log);
    var input := s.held.value;
    var steps := TickPlan(JournalOf(s.log), input, env, dryRun).steps;
    TickIsLegal(s.log, input, env, dryRun, |steps|);
    assert steps[..|steps|] == steps;
  }

  lemma StepKeepsInv(s: System, t: System)
    requires SystemInv(s) && Steps(s, t)
    ensures SystemInv(t)
  {
    var run := s.run.value;
    var step := run.rest[0];
    assert Legal(run.first, s.log, step, run.input, run.env) && LegalPath(false, s.log + [step], run.rest[1..], run.input, run.env);
    StepKeepsCreates(run.first, s.log, step, run.input, run.env, s.vms, s.creates, s.clock, run.dispatched);
    assert NeverResolvedAtOnce(run.rest[1..]);
  }

  lemma StopKeepsInv(s: System, t: System, input: Input)
    requires SystemInv(s) && StopsOutsideOn(s, t, input)
    ensures SystemInv(t)
  {
    var step := Save(DirectStopSave, DirectlyStopped(JournalOf(s.log).value));
    var env := Environment(ReconcileThrew, ExecThrew);
    assert Legal(false, s.log, step, input, env);
    StepKeepsCreates(false, s.log, step, input, env, s.vms, s.creates, s.clock, false);
    assert s.creates + DispatchOf(step, false) == s.creates;
  }

  lemma LandingKeepsInv(s: System, t: System, i: nat)
    requires SystemInv(s) && i < |s.creates| && LandsOrFails(s, t, i)
    ensures SystemInv(t)
  {
    var rest := s.creates[..i] + s.creates[i + 1..];
    forall k | 0 <= k < |rest| ensures rest[k] == s.creates[if k < i then k else k + 1] {
    }
    forall a, b | 0 <= a < b < |rest| ensures rest[a] < s.clock || rest[b] < s.clock {
      assert rest[a] == s.creates[if a < i then a else a + 1] && rest[b] == s.creates[if b < i then b else b + 1];
    }
    if k :| 0 <= k < |rest| && rest[k] >= s.clock {
      assert s.creates[if k < i then k else k + 1] == rest[k];
    }
  }

  lemma ProviderKeepsInv(s: System, t: System)
    requires SystemInv(s) && ProviderMoves(s, t)
    ensures SystemInv(t)
  {
    if i :| 0 <= i < |s.creates| && LandsOrFails(s, t, i) {
      LandingKeepsInv(s, t, i);
    } else {
      assert InFlight(t.creates, t.clock) ==> InFlight(s.creates, s.clock);
    }
  }

  lemma NextKeepsInv(s: System, t: System)
    requires SystemInv(s) && Next(s, t)
    ensures SystemInv(t)
  {
    if Begins(s, t) {
      var env, dryRun, dispatched :| BeginsWith(s, t, env, dryRun, dispatched);
      BeginKeepsInv(s, t, env, dryRun, dispatched);
    } else if Steps(s, t) {
      StepKeepsInv(s, t);
    } else if StopsOutside(s, t) {
      var input :| StopsOutsideOn(s, t, input);
      StopKeepsInv(s, t, input);
    } else if ProviderMoves(s, t) {
      ProviderKeepsInv(s, t);
    }
  }

  // In every reachable state at most one owned VM exists, and none while a create may still land.
  lemma {:induction false} AtMostOneVm(b: seq<System>, k: nat)
    requires Behaviour(b) && k < |b|
    ensures SystemInv(b[k]) && b[k].vms <= 1 && (InFlight(b[k].creates, b[k].clock) ==> b[k].vms == 0)
  {
    if k > 0 {
      AtMostOneVm(b, k - 1);
      assert Next(b[k - 1], b[k - 1 + 1]);
      NextKeepsInv(b[k - 1], b[k]);
    }
  }
}
