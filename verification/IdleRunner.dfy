/**
 What becomes of an idle runner: a ready guest without work is drained by one live tick, and a drained guest is stopped
 by the first live tick whose window of idle observations spans the grace. The window holds a hundred entries, so a grace
 longer than ninety-nine readings is never earned.
 */
module IdleRunner {
  import opened Contracts
  import opened Lifecycle
  import opened Controller
  import opened Journaling
  import opened Invariants
  import opened Orders
  import opened Calling
  import opened Runs
  import opened Liveness

  // ---- an order is journaled, marked as emitting and handed over ----

  predicate Ordered(steps: seq<Step>, effect: Effect, state: LifecycleState, reply: ExecReply) {
    && |steps| >= 3 && steps[0].Save? && steps[0].kind == IntentSave
    && steps[0].state.pendingEffect.Some? && steps[0].state.pendingEffect.value.effect == effect
    && steps[0].state.lifecycle.state == state
    && steps[1] == Save(EmittingSave, EmittingState(steps[0].state)) && steps[2] == Emit(effect, reply)
  }

  // With nothing pending, a live tick hands over whatever the table orders, but for a drain that comes too late.
  lemma OrderHandedOver(prior: State, input: Input, env: Environment)
    requires GoodState(prior) && prior.pendingEffect.None? && prior.identity == input.identity
    requires Honest(input) && SeenFrom(prior.lifecycle, input)
    requires var effect := DecideLifecycle(input.(journal := Merged(input.journal))).effect;
             !effect.NoEffect? && !DrainTooLate(effect, input.nowMs)
    ensures var decision := DecideLifecycle(input.(journal := Merged(input.journal)));
            Ordered(TickPlan(Some(prior), input, env, false).steps, decision.effect, decision.state, env.execute)
  {
    var decision, steps := DecideLifecycle(input.(journal := Merged(input.journal))), TickPlan(Some(prior), input, env, false).steps;
    OrderCalledExactly(Some(prior), input, env);
    assert steps[1..][0] == steps[1] && steps[1..][1] == steps[2];
  }

  // ---- the drain ----

  // An idle ready guest without work is drained: the order is journaled and handed over within the same tick.
  lemma IdleRunnerDrained(prior: State, input: Input, env: Environment) returns (d: int)
    requires GoodState(prior) && prior.pendingEffect.None? && prior.identity == input.identity
    requires Honest(input) && SeenFrom(prior.lifecycle, input)
    requires DrainDue(input) && Allows(input, OpRegister) && !EndsBy(input, input.nowMs - 1)
    ensures DrainFallback(input, d)
    ensures Ordered(TickPlan(Some(prior), input, env, false).steps, BeginDrain(d), Draining, env.execute)
  {
    var decided := input.(journal := Merged(input.journal));
    d := DrainDeadlineMs(EffectiveGrant(input).value.deadlineMs, input.nowMs);
    FallbackExactly(input, d);
    FallbackExactly(decided, d);
    DrainExactly(decided, d);
    LateDrainExactly(decided);
    OrderHandedOver(prior, input, env);
  }

  // ---- the stop ----

  // A drained guest of the journaled generation, seen this instant with nothing running.
  predicate DrainedNow(input: Input) {
    && IdleGuest(input) && input.journal.state == Draining && input.guest.status == Drained
    && input.guest.admissionEnabled == Some(false) && input.guest.runnerActive == Some(false) && input.guest.workerActive == Some(false)
    && input.guest.grant.Some? && input.queue.observedAtMs == input.nowMs && input.queue.eligibleQueuedJobs == 0
  }

  // From this entry on, every entry of the generation is idle.
  predicate IdleSince(idle: seq<IdleObservation>, i: nat, generation: int) {
    && i < |idle| && idle[i].generation == generation
    && forall k :: i <= k < |idle| && idle[k].generation == generation ==> idle[k].complete
  }

  // Such a reading is recorded as one more idle entry.
  lemma DrainedIsRecorded(saved: Journal, input: Input)
    requires SeenFrom(saved, input) && DrainedNow(input)
    ensures input.journal.idleObservations == saved.idleObservations + [IdleObservation(input.nowMs, true, saved.startCount)]
  {
  }

  lemma LatestAt<T>(s: seq<T>, m: nat)
    requires m < |Latest(s)|
    ensures m + |s| - |Latest(s)| < |s| && Latest(s)[m] == s[m + |s| - |Latest(s)|]
  {
  }

  lemma OlderInWindow(all: seq<IdleObservation>, i: nat, generation: int) returns (k: nat)
    requires IdleSince(all, i, generation) && |all| - i <= 100
    ensures k < |Latest(all)| && |Latest(all)| - k == |all| - i && IdleSince(Latest(all), k, generation) && Latest(all)[k] == all[i]
  {
    k := i - (|all| - |Latest(all)|);
    LatestAt(all, k);
    forall m: nat | k <= m < |Latest(all)| && Latest(all)[m].generation == generation ensures Latest(all)[m].complete {
      LatestAt(all, m);
    }
  }

  lemma LatestInOrder(s: seq<IdleObservation>)
    requires InTimeOrder(s)
    ensures InTimeOrder(Latest(s))
  {
  }

  // An entry as old as the grace within the window, and only idle ones since.
  predicate RipeSince(saved: Journal, i: nat, input: Input) {
    var idle := saved.idleObservations;
    && IdleSince(idle, i, saved.startCount) && |idle| - i < 100
    && input.nowMs - idle[i].observedAtMs >= input.config.timing.idleGraceMs
  }

  // A window that ends in this idle reading and holds one as old as the grace, with only idle ones since.
  lemma WindowIsRipe(decided: Input, k: nat)
    requires var window := decided.journal.idleObservations;
             && k < |window| - 1 && IdleSince(window, k, decided.journal.startCount) && InTimeOrder(window)
             && window[|window| - 1] == IdleObservation(decided.nowMs, true, decided.journal.startCount)
             && decided.nowMs - window[k].observedAtMs >= decided.config.timing.idleGraceMs
    requires DrainedNow(decided) && decided.config.timing.pollIntervalMs >= 0
    ensures GraceEarnedBetween(decided, k, |decided.journal.idleObservations| - 1)
  {
  }

  lemma RipeIsDue(saved: Journal, i: nat, input: Input)
    requires Honest(input) && SeenFrom(saved, input) && InTimeOrder(saved.idleObservations) && |saved.idleObservations| <= 100
    requires DrainedNow(input) && RipeSince(saved, i, input)
    ensures InTimeOrder(Merged(input.journal).idleObservations) && StopDue(input.(journal := Merged(input.journal)))
  {
    var entry := IdleObservation(input.nowMs, true, saved.startCount);
    var all := saved.idleObservations + [entry];
    DrainedIsRecorded(saved, input);
    assert IdleSince(all, i, saved.startCount) && all[i] == saved.idleObservations[i];
    var k := OlderInWindow(all, i, saved.startCount);
    LatestAt(all, |Latest(all)| - 1);
    OneMoreInOrder(saved.idleObservations, entry);
    LatestInOrder(all);
    WindowIsRipe(input.(journal := Merged(input.journal)), k);
  }

  // The first reading at least the grace after a recorded one, with only idle ones between them, stops the runner, when
  // the recorded one is still within the window.
  lemma IdleRunnerStopped(prior: State, i: nat, input: Input, env: Environment)
    requires GoodState(prior) && prior.pendingEffect.None? && prior.identity == input.identity
    requires Honest(input) && SeenFrom(prior.lifecycle, input) && InTimeOrder(prior.lifecycle.idleObservations)
    requires DrainedNow(input) && Allows(input, OpStop) && RipeSince(prior.lifecycle, i, input)
    ensures Ordered(TickPlan(Some(prior), input, env, false).steps, StopVm(false), Stopping, env.execute)
  {
    assert prior.lifecycle == Merged(prior.lifecycle);
    RipeIsDue(prior.lifecycle, i, input);
    StopExactly(input.(journal := Merged(input.journal)));
    OrderHandedOver(prior, input, env);
  }

  // Until then every live tick records the reading, and orders nothing.
  lemma IdleReadingKept(prior: State, input: Input, env: Environment)
    requires GoodState(prior) && prior.pendingEffect.None? && prior.identity == input.identity
    requires Honest(input) && SeenFrom(prior.lifecycle, input) && DrainedNow(input)
    requires DecideLifecycle(input.(journal := Merged(input.journal))).effect.NoEffect?
    ensures var steps := TickPlan(Some(prior), input, env, false).steps;
            && |steps| == 1 && steps[0].Save? && steps[0].state.pendingEffect.None?
            && steps[0].state.lifecycle.state == Draining
            && steps[0].state.lifecycle.idleObservations
               == Latest(prior.lifecycle.idleObservations + [IdleObservation(input.nowMs, true, prior.lifecycle.startCount)])
  {
    DrainedIsRecorded(prior.lifecycle, input);
    ObservedIsGood(Some(prior), State(input.identity, Merged(input.journal), None, prior.readbacks), input);
  }

  lemma OneMoreInOrder(s: seq<IdleObservation>, entry: IdleObservation)
    requires InTimeOrder(s) && (s != [] ==> s[|s| - 1].observedAtMs < entry.observedAtMs)
    ensures InTimeOrder(s + [entry])
  {
    assert forall k :: 0 <= k < |s| ==> s[k].observedAtMs <= s[|s| - 1].observedAtMs;
  }

  // ---- in a run ----

  // An act that hands this order over in one live tick.
  predicate HandsOver(before: seq<Step>, after: seq<Step>, effect: Effect, state: LifecycleState, reply: ExecReply) {
    |before| <= |after| && before == after[..|before|] && Ordered(after[|before|..], effect, state, reply)
  }

  lemma Appended(before: seq<Step>, steps: seq<Step>, effect: Effect, state: LifecycleState, reply: ExecReply)
    requires Ordered(steps, effect, state, reply)
    ensures HandsOver(before, before + steps, effect, state, reply)
  {
    assert (before + steps)[|before|..] == steps;
  }

  predicate Free(w: World, input: Input) {
    JournalOf(w.log).Some? && JournalOf(w.log).value.pendingEffect.None? && JournalOf(w.log).value.identity == input.identity
  }

  lemma RunHandsOver(acts: seq<Act>, a: Act, effect: Effect, state: LifecycleState)
    requires Allowed(acts) && Admissible(After(acts), a) && Uncut(After(acts), a)
    requires Ordered(TickPlan(JournalOf(After(acts).log), Observed(After(acts), a).value, a.env, false).steps, effect, state, a.env.execute)
    ensures HandsOver(After(acts).log, After(acts + [a]).log, effect, state, a.env.execute)
  {
    var w := After(acts);
    LiveTick(w, a);
    AfterSnoc(acts, a);
    Appended(w.log, TickPlan(JournalOf(w.log), Observed(w, a).value, a.env, false).steps, effect, state, a.env.execute);
  }

  ghost predicate SeesIdle(w: World, a: Act)
    requires Observed(w, a).Some?
  {
    var input := Observed(w, a).value;
    Free(w, input) && DrainDue(input) && Allows(input, OpRegister) && !EndsBy(input, input.nowMs - 1)
  }

  lemma TickDrains(w: World, a: Act) returns (d: int)
    requires Sound(w.log, w.clock) && Admissible(w, a) && Uncut(w, a) && SeesIdle(w, a)
    ensures DrainFallback(Observed(w, a).value, d)
    ensures Ordered(TickPlan(JournalOf(w.log), Observed(w, a).value, a.env, false).steps, BeginDrain(d), Draining, a.env.execute)
  {
    var input := SoundTick(w, a);
    d := IdleRunnerDrained(JournalOf(w.log).value, input, a.env);
  }

  // In every run a live tick that sees an idle ready guest without work drains it.
  lemma RunDrains(acts: seq<Act>, a: Act) returns (d: int)
    requires Allowed(acts) && Admissible(After(acts), a) && Uncut(After(acts), a) && SeesIdle(After(acts), a)
    ensures DrainFallback(Observed(After(acts), a).value, d)
    ensures HandsOver(After(acts).log, After(acts + [a]).log, BeginDrain(d), Draining, a.env.execute)
  {
    RunIsSound(acts);
    d := TickDrains(After(acts), a);
    RunHandsOver(acts, a, BeginDrain(d), Draining);
  }

  // In every run a live tick on a drained guest stops it once an idle entry of the window is as old as the grace.
  lemma RunStops(acts: seq<Act>, i: nat, b: Act)
    requires Allowed(acts) && Admissible(After(acts), b) && Uncut(After(acts), b)
    requires var input := Observed(After(acts), b).value;
             && Free(After(acts), input) && DrainedNow(input) && Allows(input, OpStop)
             && var journal := JournalOf(After(acts).log).value.lifecycle;
                InTimeOrder(journal.idleObservations) && RipeSince(journal, i, input)
    ensures HandsOver(After(acts).log, After(acts + [b]).log, StopVm(false), Stopping, b.env.execute)
  {
    RunIsSound(acts);
    var input := SoundTick(After(acts), b);
    IdleRunnerStopped(JournalOf(After(acts).log).value, i, input, b.env);
    RunHandsOver(acts, b, StopVm(false), Stopping);
  }

  // ---- how long a grace the window can hold ----

  // n idle readings of one generation, one every `everyMs`, the last of them now.
  function Readings(n: nat, everyMs: int, generation: int, nowMs: int): (r: seq<IdleObservation>)
    ensures |r| == n && forall k :: 0 <= k < n ==> r[k] == IdleObservation(nowMs - (n - 1 - k) * everyMs, true, generation)
  {
    seq(n, k requires 0 <= k < n => IdleObservation(nowMs - (n - 1 - k) * everyMs, true, generation))
  }

  lemma SpacedInOrder(n: nat, everyMs: int, generation: int, nowMs: int)
    requires everyMs > 0
    ensures InTimeOrder(Readings(n, everyMs, generation, nowMs))
  {
    var s := Readings(n, everyMs, generation, nowMs);
    forall i, j | 0 <= i < j < n ensures s[i].observedAtMs < s[j].observedAtMs {
      assert (n - 1 - j) * everyMs < (n - 1 - i) * everyMs;
    }
  }

  lemma LatestReadings(n: nat, everyMs: int, generation: int, nowMs: int)
    ensures Latest(Readings(n, everyMs, generation, nowMs)) == Readings(Min(n, 100), everyMs, generation, nowMs)
  {
  }

  // Readings taken one after another earn the grace exactly when the window's ninety-nine gaps, or those there are yet,
  // add up to it.
  lemma WindowSpansGrace(input: Input, n: nat, everyMs: int)
    requires 0 < everyMs && 0 < input.config.timing.idleGraceMs && input.guest.grant.Some? && 0 <= input.config.timing.pollIntervalMs
    requires input.queue.observedAtMs == input.nowMs
    requires input.journal.idleObservations == Latest(Readings(n, everyMs, input.guest.grant.value.generation, input.nowMs))
    ensures IdleGraceSatisfied(input) <==> (Min(n, 100) - 1) * everyMs >= input.config.timing.idleGraceMs
  {
    var generation := input.guest.grant.value.generation;
    var m: nat := Min(n, 100);
    LatestReadings(n, everyMs, generation, input.nowMs);
    SpacedInOrder(m, everyMs, generation, input.nowMs);
    GraceExactly(input);
    var all := Readings(m, everyMs, generation, input.nowMs);
    if first, last :| GraceEarnedBetween(input, first, last) {
      assert (m - 1 - first) * everyMs <= (m - 1) * everyMs && (m - 1 - last) * everyMs >= 0;
    }
    if (m - 1) * everyMs >= input.config.timing.idleGraceMs {
      assert m >= 2 && all[0].observedAtMs == input.nowMs - (m - 1) * everyMs && all[m - 1].observedAtMs == input.nowMs - 0 * everyMs;
      assert GraceEarnedBetween(input, 0, m - 1);
    }
  }

  lemma GapsBelow(gaps: int, everyMs: int)
    requires gaps <= 99 && 0 < everyMs
    ensures gaps * everyMs <= 99 * everyMs
  {
  }

  // A grace longer than ninety-nine readings is never earned, however long the guest has been idle.
  lemma LongGraceNeverEarned(input: Input, n: nat, everyMs: int)
    requires 0 < everyMs && 99 * everyMs < input.config.timing.idleGraceMs
    requires input.guest.grant.Some? && 0 <= input.config.timing.pollIntervalMs && input.queue.observedAtMs == input.nowMs
    requires input.journal.idleObservations == Latest(Readings(n, everyMs, input.guest.grant.value.generation, input.nowMs))
    ensures !IdleGraceSatisfied(input)
  {
    WindowSpansGrace(input, n, everyMs);
    GapsBelow(Min(n, 100) - 1, everyMs);
  }
}
