/**
 Whole runs of the controller: any sequence of observations and ticks, each tick cut off after any prefix of its
 durable steps by a crash, and stops the controller emits outside the tick. The theorems hold of every such run.
 */
module Runs {
  import opened Contracts
  import opened Controller
  import opened Accounting
  import opened Paths
  import opened Journaling
  import opened Invariants
  import opened Emissions
  import opened Generations
  import opened History

  // Everything durable: the journal writes and provider calls so far, and the accounting file.
  datatype World = World(log: seq<Step>, ledger: Option<Ledger>, clock: int)

  datatype Act =
    | Tick(look: Look, env: Environment, dryRun: bool, cut: nat)
    // A stop emitted outside the tick, after an observation of its own (stop, cleanup and interrupt recovery).
    | DirectStop(look: Look)

  function Cut(steps: seq<Step>, n: nat): seq<Step> { if n < |steps| then steps[..n] else steps }

  // The durable steps of one act under the input it observed.
  function StepsOf(j: Option<State>, input: Input, act: Act): seq<Step> {
    match act
    case Tick(_, env, dryRun, cut) => Cut(TickPlan(j, input, env, dryRun).steps, cut)
    case DirectStop(_) =>
      if j.Some? && GuestUp(j.value.lifecycle.state) then [Save(DirectStopSave, DirectlyStopped(j.value))] else []
  }

  // Outside a tick the provider's answers are not consulted.
  function EnvOf(act: Act): Environment {
    if act.Tick? then act.env else Environment(ReconcileThrew, ExecThrew)
  }

  function Perform(w: World, act: Act): World {
    var j := JournalOf(w.log);
    var observed := Observe(j, w.ledger, act.look);
    if observed.None? then w.(clock := act.look.nowMs)
    else World(w.log + StepsOf(j, observed.value.0, act), Some(observed.value.1), act.look.nowMs)
  }

  function After(acts: seq<Act>): World {
    if acts == [] then World([], None, 0) else Perform(After(acts[..|acts| - 1]), acts[|acts| - 1])
  }

  lemma AfterSnoc(acts: seq<Act>, act: Act)
    ensures After(acts + [act]) == Perform(After(acts), act)
  {
    assert (acts + [act])[..|acts|] == acts;
  }

  // What is assumed of one act: time moves on, records are parsed, and refusals name a quota.
  predicate Admissible(w: World, act: Act) {
    var observed := Observe(JournalOf(w.log), w.ledger, act.look);
    && w.clock < act.look.nowMs
    && ReadableRefusals(EnvOf(act)) && (observed.Some? ==> Honest(observed.value.0))
  }

  ghost predicate Allowed(acts: seq<Act>) {
    forall k :: 0 <= k < |acts| ==> Admissible(After(acts[..k]), acts[k])
  }

  // ---- the invariant of every run ----

  predicate EmissionsHold(log: seq<Step>) {
    EmissionInv(log) && (log != [] ==> EmissionsHold(log[..|log| - 1]))
  }

  // A journaled graceful stop and the two observations it rests on.
  ghost predicate RestedStop(log: seq<Step>, graceMs: int) {
    var all, generation := Recorded(log), StartCount(log);
    exists first: nat, last: nat {:trigger all[first], all[last]} ::
      && first < last < |all| && all[last].observedAtMs - all[first].observedAtMs >= graceMs
      && (forall k :: first <= k <= last ==> all[k].complete && all[k].generation == generation)
      && (forall m :: m in Resumes(log) ==> !(first < m.at <= last))
  }

  predicate GracefulStop(step: Step) {
    IsSave(step, IntentSave) && step.state.pendingEffect.Some? && step.state.pendingEffect.value.effect == StopVm(false)
  }

  ghost predicate StopsRested(log: seq<Step>, graceMs: int) {
    forall k :: 0 <= k < |log| && GracefulStop(log[k]) ==> RestedStop(log[..k + 1], graceMs)
  }

  // No recorded observation is younger than the last reading.
  predicate WindowSeen(log: seq<Step>, clock: int) {
    var j := JournalOf(log);
    j.Some? ==> IdleSeen(j.value.lifecycle.idleObservations, clock)
  }

  predicate IdleSeen(idle: seq<IdleObservation>, clock: int) { idle != [] ==> idle[|idle| - 1].observedAtMs <= clock }

  ghost predicate Sound(log: seq<Step>, clock: int) {
    AllGood(log) && GenerationInv(log) && WindowSeen(log, clock)
  }

  lemma MergedSeen(saved: Journal, input: Input, clock: int)
    requires SeenFrom(saved, input) && IdleSeen(saved.idleObservations, clock) && clock <= input.nowMs
    ensures IdleSeen(Merged(input.journal).idleObservations, input.nowMs)
  {
    LatestLast(input.journal.idleObservations);
  }

  lemma WaitingSeen(first: bool, log: seq<Step>, prior: State, s: State, input: Input, env: Environment, clock: int)
    requires prior.pendingEffect.Some? && IdleSeen(prior.lifecycle.idleObservations, clock) && clock <= input.nowMs
    requires LegalWaiting(first, log, prior, s, input, env)
    ensures IdleSeen(s.lifecycle.idleObservations, input.nowMs)
  {
    if first && LegalRefusalReadback(prior, s, input, env) && prior.pendingEffect.value.effect.StartVm? {
      MergedSeen(prior.lifecycle, input, clock);
    }
  }

  lemma IntentSeen(prior: Option<State>, s: State, input: Input, clock: int)
    requires prior.Some? ==> IdleSeen(prior.value.lifecycle.idleObservations, clock)
    requires LegalIntent(prior, s, input) && clock <= input.nowMs
    ensures IdleSeen(s.lifecycle.idleObservations, input.nowMs)
  {
    if prior.Some? {
      MergedSeen(prior.value.lifecycle, input, clock);
    }
  }

  lemma StepKeepsWindow(first: bool, log: seq<Step>, step: Step, input: Input, env: Environment, clock: int)
    requires WindowSeen(log, clock) && Legal(first, log, step, input, env) && clock <= input.nowMs
    ensures WindowSeen(log + [step], input.nowMs)
  {
    JournalOfSnoc(log, step);
    var prior := JournalOf(log);
    if step.Save? {
      match step.kind
      case IntentSave => IntentSeen(prior, step.state, input, clock);
      case WaitingSave => WaitingSeen(first, log, prior.value, step.state, input, env, clock);
      case ObservedSave =>
        if prior.Some? {
          MergedSeen(prior.value.lifecycle, input, clock);
        }
      case _ => QuietSave(first, log, step.kind, step.state, input, env);
    }
  }

  lemma StepKeepsSound(first: bool, log: seq<Step>, step: Step, input: Input, env: Environment, clock: int)
    requires Sound(log, clock) && Legal(first, log, step, input, env) && clock <= input.nowMs
    requires Honest(input) && ReadableRefusals(env)
    ensures Sound(log + [step], input.nowMs)
  {
    StepIsGood(first, log, step, input, env);
    StepKeepsGenerations(first, log, step, input, env);
    StepKeepsWindow(first, log, step, input, env, clock);
  }

  lemma LaterSound(log: seq<Step>, clock: int, later: int)
    requires Sound(log, clock) && clock <= later
    ensures Sound(log, later)
  {
  }

  lemma PathKeepsSound(log: seq<Step>, steps: seq<Step>, input: Input, env: Environment, clock: int)
    requires Sound(log, clock) && LegalPath(true, log, steps, input, env) && clock <= input.nowMs
    requires Honest(input) && ReadableRefusals(env)
    ensures Sound(log + steps, input.nowMs)
  {
    LaterSound(log, clock, input.nowMs);
    forall f, l, step | Sound(l, input.nowMs) && Legal(f, l, step, input, env) ensures Sound(l + [step], input.nowMs) {
      StepKeepsSound(f, l, step, input, env, input.nowMs);
    }
    PathInduction(Rule(input, env), (f, l) => Sound(l, input.nowMs), true, log, steps);
    if steps == [] {
      assert log + steps == log;
    }
  }

  // What the controller observes follows the journal it will read.
  lemma ObserveFollows(j: Option<State>, ledger: Option<Ledger>, look: Look)
    requires j.Some? ==> Parse(j.value) == Some(j.value)
    requires Observe(j, ledger, look).Some? && Honest(Observe(j, ledger, look).value.0)
    requires j.Some? && j.value.lifecycle.idleObservations != [] ==>
               var idle := j.value.lifecycle.idleObservations; idle[|idle| - 1].observedAtMs < look.nowMs
    ensures var input := Observe(j, ledger, look).value.0;
            SeenAfter(j, input) && input.nowMs == look.nowMs && input.permit == look.permit && input.config == look.config
  {
    var known := ReadLedger(ledger, j, look).value;
    AdvanceOnlyGrows(SavedJournal(j, look), known, look);
  }

  // The durable steps of one act are a legal path under the input it observed.
  lemma ActIsPath(w: World, act: Act)
    requires Sound(w.log, w.clock) && Admissible(w, act) && Observe(JournalOf(w.log), w.ledger, act.look).Some?
    ensures var input := Observe(JournalOf(w.log), w.ledger, act.look).value.0;
            && LegalPath(true, w.log, StepsOf(JournalOf(w.log), input, act), input, EnvOf(act))
            && SeenAfter(JournalOf(w.log), input)
            && input.nowMs == act.look.nowMs && input.permit == act.look.permit && input.config == act.look.config
  {
    var j := JournalOf(w.log);
    GoodJournal(w.log);
    ObserveFollows(j, w.ledger, act.look);
    var input := Observe(j, w.ledger, act.look).value.0;
    if act.Tick? {
      var plan := TickPlan(j, input, act.env, act.dryRun);
      var n := if act.cut < |plan.steps| then act.cut else |plan.steps|;
      assert plan.steps[..n] == Cut(plan.steps, act.cut);
      TickIsLegal(w.log, input, act.env, act.dryRun, n);
    } else if StepsOf(j, input, act) != [] {
      OneStep(true, w.log, Save(DirectStopSave, DirectlyStopped(j.value)), input, EnvOf(act));
    }
  }

  lemma ActKeepsSound(w: World, act: Act)
    requires Sound(w.log, w.clock) && Admissible(w, act)
    ensures Sound(Perform(w, act).log, act.look.nowMs)
  {
    var observed := Observe(JournalOf(w.log), w.ledger, act.look);
    if observed.None? {
      LaterSound(w.log, w.clock, act.look.nowMs);
    } else {
      ActIsPath(w, act);
      var steps := StepsOf(JournalOf(w.log), observed.value.0, act);
      PathKeepsSound(w.log, steps, observed.value.0, EnvOf(act), w.clock);
    }
  }

  lemma {:induction false} RunIsSound(acts: seq<Act>)
    requires Allowed(acts)
    ensures Sound(After(acts).log, After(acts).clock)
  {
    if acts != [] {
      var before := acts[..|acts| - 1];
      assert forall k :: 0 <= k < |before| ==> before[..k] == acts[..k];
      RunIsSound(before);
      ActKeepsSound(After(before), acts[|acts| - 1]);
    }
  }
}
