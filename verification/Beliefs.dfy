/**
 What the journal believes, told from the run's own events: over any run its state, the times of the running
 generation and the kind of an open capacity wait follow from which effects were journaled, refused and confirmed, and
 from nothing else (packages/runner/src/controller.ts, applyDecision, waitForCapacity and reconcile).
 */
module Beliefs {
  import opened Contracts
  import opened Lifecycle
  import opened Controller
  import opened Accounting
  import opened Journaling
  import opened Invariants
  import opened Orders
  import opened Runs
  import opened Theorems

  datatype Times = Times(startedAtMs: int, deadlineMs: int)

  datatype Belief = Belief(state: LifecycleState, times: Option<Times>, waitsFor: Option<IntentKind>)

  // An order is taken to succeed. A create forgets the times of any earlier generation, and a start sets its own.
  function Ordered(b: Belief, effect: Effect, nowMs: int): Belief {
    match effect
    case CreateVm(_, _, _) => Belief(Starting, None, b.waitsFor)
    case StartVm(_, deadlineMs) => Belief(Starting, Some(Times(nowMs, deadlineMs)), b.waitsFor)
    case RegisterRunner(_) => b.(state := Ready)
    case ResumeAdmission => b.(state := Ready)
    case BeginDrain(_) => b.(state := Draining)
    case StopVm(_) => b.(state := Stopping)
    case DeleteVm(_) => b.(state := Absent)
    case _ => b
  }

  // A refused create leaves no VM, a refused start a stopped one, and neither a running generation.
  function TurnedAway(effect: Effect): Belief {
    if effect.CreateVm? then Belief(Absent, None, Some(CreateIntent)) else Belief(Stopped, None, Some(StartIntent))
  }

  // A created VM is stopped. A started or deleted one ends the wait for capacity.
  function Confirmed(b: Belief, effect: Effect): Belief {
    match effect
    case CreateVm(_, _, _) => Belief(Stopped, None, b.waitsFor)
    case StartVm(_, _) => b.(waitsFor := None)
    case DeleteVm(_) => Belief(b.state, None, None)
    case _ => b
  }

  // The effect that a write settles or refuses.
  function Was(log: seq<Step>): Effect {
    if HasPending(JournalOf(log)) then JournalOf(log).value.pendingEffect.value.effect else NoEffect
  }

  // What one write tells, after what was believed before it.
  function Next(b: Belief, log: seq<Step>, kind: SaveKind, s: State): Belief {
    if kind == IntentSave && s.pendingEffect.Some? then Ordered(b, s.pendingEffect.value.effect, s.pendingEffect.value.createdAtMs)
    else if kind == WaitingSave then TurnedAway(Was(log))
    else if kind == ReconciledSave then Confirmed(b, Was(log))
    else if kind == DirectStopSave then b.(state := Stopping)
    else if JournalOf(log).None? then Belief(s.lifecycle.state, None, None)
    else b
  }

  function Believed(log: seq<Step>): Belief {
    if log == [] then Belief(Absent, None, None)
    else
      var init, last := log[..|log| - 1], log[|log| - 1];
      if last.Emit? then Believed(init) else Next(Believed(init), init, last.kind, last.state)
  }

  function TimesOf(journal: Journal): Option<Times> {
    if journal.grantStartedAtMs.Some? && journal.grantDeadlineMs.Some? then
      Some(Times(journal.grantStartedAtMs.value, journal.grantDeadlineMs.value))
    else None
  }

  predicate Tells(b: Belief, journal: Journal) {
    && journal.state == b.state && TimesOf(journal) == b.times
    && (journal.grantStartedAtMs.Some? <==> journal.grantDeadlineMs.Some?)
    && (journal.capacityWait.Some? <==> b.waitsFor.Some?)
    && (b.waitsFor.Some? ==> journal.capacityWait.value.refusedEffect == b.waitsFor.value)
  }

  predicate Told(log: seq<Step>) {
    JournalOf(log).Some? ==> Tells(Believed(log), JournalOf(log).value.lifecycle)
  }

  // ---- orders ----

  // With nothing outstanding the state an order journals is the one it leads to.
  lemma OrderState(input: Input)
    requires Honest(input) && input.journal.outstandingIntent.None? && !DecideLifecycle(input).effect.NoEffect?
    ensures var decision := DecideLifecycle(input);
            && !decision.effect.AdoptVm?
            && forall b, nowMs :: decision.state == Ordered(b, decision.effect, nowMs).state
  {
    OwnedExactly(input);
    if Settled(input) {
      RestExactly(input);
      if AtRest(input) {
        WorkState(input);
      }
    } else {
      CreateAsked(input);
    }
  }

  lemma WorkState(input: Input)
    requires Honest(input) && !DecideWork(input).effect.NoEffect?
    ensures var decision := DecideWork(input);
            && !decision.effect.AdoptVm? && !decision.effect.CreateVm?
            && forall b, nowMs :: decision.state == Ordered(b, decision.effect, nowMs).state
  {
    WorkNeverCreates(input);
    match DecideWork(input).effect
    case StartVm(generation, deadlineMs) => WorkStarts(input, generation, deadlineMs);
    case RegisterRunner(cutoffMs) => WorkRegisters(input, cutoffMs);
    case BeginDrain(fallbackMs) => WorkDrains(input, fallbackMs);
    case ResumeAdmission => WorkResumes(input);
    case StopVm(_) => WorkStops(input);
    case DeleteVm(generation) => WorkDeletes(input, generation);
    case _ =>
  }

  // Everything but the state, which an order overwrites.
  predicate TellsTimes(b: Belief, journal: Journal) { Tells(b.(state := journal.state), journal) }

  lemma OrderTold(b: Belief, journal: Journal, decision: Decision, nowMs: int)
    requires TellsTimes(b, journal) && !decision.effect.NoEffect? && !decision.effect.AdoptVm?
    requires decision.state == Ordered(b, decision.effect, nowMs).state
    ensures Tells(Ordered(b, decision.effect, nowMs), ApplyDecision(journal, decision, nowMs))
  {
  }

  lemma BaseTold(prior: Option<State>, input: Input, b: Belief)
    requires SeenAfter(prior, input)
    requires if prior.Some? then TellsTimes(b, prior.value.lifecycle) else b == Belief(Absent, None, None)
    ensures TellsTimes(b, BaseJournal(prior, input))
    ensures prior.Some? ==> BaseJournal(prior, input).state == prior.value.lifecycle.state
  {
  }

  lemma IntentTold(prior: Option<State>, s: State, input: Input, b: Belief)
    requires Honest(input) && LegalIntent(prior, s, input) && s.pendingEffect.Some?
    requires prior.Some? ==> GoodState(prior.value)
    requires if prior.Some? then Tells(b, prior.value.lifecycle) else b == Belief(Absent, None, None)
    ensures Tells(Ordered(b, s.pendingEffect.value.effect, s.pendingEffect.value.createdAtMs), s.lifecycle)
  {
    BaseTold(prior, input, b);
    var base := BaseJournal(prior, input);
    if HasPending(prior) {
      OrderTold(b, Merged(input.journal).(outstandingIntent := None), RetireDecision(Merged(input.journal)), input.nowMs);
    } else {
      var decided := input.(journal := base);
      OrderState(decided);
      OrderTold(b, base, DecideLifecycle(decided), input.nowMs);
    }
  }

  lemma WaitingTold(prior: State, s: State, refusal: CapacityRefusal, kind: IntentKind, input: Input)
    requires prior.pendingEffect.Some? && KindOf(prior.pendingEffect.value.effect) == Some(kind)
    requires Some(s) == WaitingState(prior, refusal, kind, input)
    ensures Tells(TurnedAway(prior.pendingEffect.value.effect), s.lifecycle)
  {
  }

  lemma RefusalTold(first: bool, log: seq<Step>, prior: State, s: State, input: Input, env: Environment)
    requires prior.pendingEffect.Some? && LegalWaiting(first, log, prior, s, input, env)
    ensures Tells(TurnedAway(prior.pendingEffect.value.effect), s.lifecycle)
  {
    var kind, emitted := KindOf(prior.pendingEffect.value.effect).value, LastEmitReply(log);
    if emitted.Some? && emitted.value.ExecRefused? && Some(s) == WaitingState(prior, emitted.value.refusal, kind, input) {
      WaitingTold(prior, s, emitted.value.refusal, kind, input);
    } else {
      var refusal := env.reconcile.capacityRefusal.value;
      if kind == StartIntent {
        WaitingTold(prior.(lifecycle := Merged(input.journal), readbacks := s.readbacks), s, refusal, kind, input);
      } else {
        WaitingTold(prior.(readbacks := s.readbacks), s, refusal, kind, input);
      }
    }
  }

  lemma ConfirmedTold(prior: State, readback: Readback, b: Belief)
    requires GoodState(prior) && prior.pendingEffect.Some? && Tells(b, prior.lifecycle)
    ensures Tells(Confirmed(b, prior.pendingEffect.value.effect), ReconciledState(prior, readback).lifecycle)
  {
  }

  lemma BelievedSnoc(log: seq<Step>, step: Step)
    ensures Believed(log + [step]) == if step.Emit? then Believed(log) else Next(Believed(log), log, step.kind, step.state)
  {
    assert (log + [step])[..|log|] == log;
  }

  lemma {:induction false} NothingBelieved(log: seq<Step>)
    requires JournalOf(log).None?
    ensures Believed(log) == Belief(Absent, None, None)
  {
    if log != [] {
      NothingBelieved(log[..|log| - 1]);
    }
  }

  // The writes that change neither state, times nor wait.
  lemma QuietTold(first: bool, log: seq<Step>, kind: SaveKind, s: State, input: Input, env: Environment)
    requires Told(log) && kind !in {IntentSave, WaitingSave, ReconciledSave, DirectStopSave, ObservedSave}
    requires LegalSave(first, log, kind, s, input, env)
    ensures JournalOf(log).Some? && Tells(Believed(log), s.lifecycle)
  {
    if kind == AmbiguousSave && LateFailure(log, s) {
      assert JournalOf(log) == Some(log[|log| - 1].state);
    }
  }

  lemma ObservedTold(first: bool, log: seq<Step>, s: State, input: Input, env: Environment)
    requires Told(log) && Honest(input) && LegalSave(first, log, ObservedSave, s, input, env)
    ensures Tells(Next(Believed(log), log, ObservedSave, s), s.lifecycle)
  {
    BaseTold(JournalOf(log), input, if JournalOf(log).Some? then Believed(log) else Belief(Absent, None, None));
  }

  lemma OrderedTold(first: bool, log: seq<Step>, s: State, input: Input, env: Environment)
    requires Told(log) && AllGood(log) && Honest(input) && LegalSave(first, log, IntentSave, s, input, env)
    ensures Tells(Next(Believed(log), log, IntentSave, s), s.lifecycle)
  {
    GoodJournal(log);
    if JournalOf(log).None? {
      NothingBelieved(log);
    }
    IntentTold(JournalOf(log), s, input, Believed(log));
  }

  lemma SettledTold(first: bool, log: seq<Step>, kind: SaveKind, s: State, input: Input, env: Environment)
    requires Told(log) && AllGood(log) && (kind == WaitingSave || kind == ReconciledSave)
    requires LegalSave(first, log, kind, s, input, env)
    ensures Tells(Next(Believed(log), log, kind, s), s.lifecycle)
  {
    GoodJournal(log);
    if kind == WaitingSave {
      RefusalTold(first, log, JournalOf(log).value, s, input, env);
    } else {
      ConfirmedTold(JournalOf(log).value, env.reconcile.readback, Believed(log));
    }
  }

  lemma SaveIsTold(first: bool, log: seq<Step>, kind: SaveKind, s: State, input: Input, env: Environment)
    requires Told(log) && AllGood(log) && Honest(input) && LegalSave(first, log, kind, s, input, env)
    ensures Tells(Next(Believed(log), log, kind, s), s.lifecycle)
  {
    match kind
    case ObservedSave => ObservedTold(first, log, s, input, env);
    case IntentSave => OrderedTold(first, log, s, input, env);
    case WaitingSave => SettledTold(first, log, kind, s, input, env);
    case ReconciledSave => SettledTold(first, log, kind, s, input, env);
    case DirectStopSave =>
    case _ => QuietTold(first, log, kind, s, input, env);
  }

  lemma StepKeepsTold(first: bool, log: seq<Step>, step: Step, input: Input, env: Environment)
    requires Told(log) && AllGood(log) && Honest(input) && Legal(first, log, step, input, env)
    ensures Told(log + [step])
  {
    JournalOfSnoc(log, step);
    BelievedSnoc(log, step);
    if step.Save? {
      SaveIsTold(first, log, step.kind, step.state, input, env);
    }
  }

  // ---- over a run ----

  lemma ActKeepsTold(w: World, act: Act)
    requires Sound(w.log, w.clock) && Admissible(w, act) && Told(w.log)
    ensures Told(Perform(w, act).log)
  {
    if Observe(JournalOf(w.log), w.ledger, act.look).Some? {
      var input := Observe(JournalOf(w.log), w.ledger, act.look).value.0;
      forall f, l, step | Sound(l, input.nowMs) && Told(l) && Legal(f, l, step, input, EnvOf(act)) ensures Told(l + [step]) {
        StepKeepsTold(f, l, step, input, EnvOf(act));
      }
      ActInduction((f, l) => Told(l), w, act);
    }
  }

  // Every journal of a run says what its events tell.
  lemma JournalIsTold(acts: seq<Act>)
    requires Allowed(acts) && JournalOf(After(acts).log).Some?
    ensures Tells(Believed(After(acts).log), JournalOf(After(acts).log).value.lifecycle)
  {
    forall w: World, act: Act | Sound(w.log, w.clock) && Admissible(w, act) && Told(w.log) ensures Told(Perform(w, act).log) {
      ActKeepsTold(w, act);
    }
    RunInduction((w: World) => Told(w.log), (w, act) => true, acts);
  }
}
