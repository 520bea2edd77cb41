/**
 Capacity refusals: how long each one holds (packages/runner/src/lifecycle.ts, nextCapacityWait), and that over whole
 runs a refused create or start is neither journaled nor called again before its wait is over.
 */
module Refusals {
  import opened Contracts
  import opened Lifecycle
  import opened Controller
  import opened Accounting
  import opened Journaling
  import opened Invariants
  import opened Emissions
  import opened Orders
  import opened Runs
  import opened Theorems
  import opened Traces

  // ---- one refusal ----

  // Two, four and eight minutes for the first three refusals of an episode, and sixteen for every later one.
  function HoldMs(k: int): int { if k <= 1 then 120_000 else if k == 2 then 240_000 else if k == 3 then 480_000 else 960_000 }

  // The episode goes on when the refusal comes at most sixteen minutes after its last retry time.
  predicate Continues(previous: Option<CapacityWait>, nowMs: int) {
    previous.Some? && nowMs <= previous.value.retryAtMs + 960_000
  }

  lemma {:induction false} Pow2Grows(n: nat)
    requires n >= 3
    ensures Pow2(n) >= 8
  {
    if n > 3 {
      Pow2Grows(n - 1);
    } else {
      assert Pow2(3) == 2 * Pow2(2) && Pow2(2) == 2 * Pow2(1) && Pow2(1) == 2 * Pow2(0);
    }
  }

  lemma BackoffExactly(k: int)
    requires k >= 1
    ensures Min(CAPACITY_RETRY_MAX_MS, CAPACITY_RETRY_BASE_MS * Pow2(Min(Max(k - 1, 0), 16))) == HoldMs(k)
  {
    if k >= 4 {
      Pow2Grows(Min(k - 1, 16));
    } else {
      assert Pow2(2) == 2 * Pow2(1) && Pow2(1) == 2 * Pow2(0);
    }
  }

  // The k-th refusal of an episode holds for the longer of the poll interval and its share, counted from the refusal.
  lemma WaitExactly(previous: Option<CapacityWait>, refusal: CapacityRefusal, kind: IntentKind, nowMs: int, pollIntervalMs: int)
    requires previous.Some? ==> previous.value.refusals >= 1
    ensures var wait := NextCapacityWait(previous, refusal, kind, nowMs, pollIntervalMs);
            && wait.refusedEffect == kind && wait.lastRefusedAtMs == nowMs
            && wait.refusals == (if Continues(previous, nowMs) then previous.value.refusals + 1 else 1)
            && wait.firstRefusedAtMs == (if Continues(previous, nowMs) then previous.value.firstRefusedAtMs else nowMs)
            && wait.retryAtMs >= nowMs + pollIntervalMs && wait.retryAtMs >= nowMs + HoldMs(wait.refusals)
            && (wait.retryAtMs == nowMs + pollIntervalMs || wait.retryAtMs == nowMs + HoldMs(wait.refusals))
  {
    BackoffExactly(NextCapacityWait(previous, refusal, kind, nowMs, pollIntervalMs).refusals);
  }

  // ---- an episode ----

  datatype Refused = Refused(refusal: CapacityRefusal, kind: IntentKind, nowMs: int, pollIntervalMs: int)

  // The wait after a row of refusals.
  function WaitAfter(row: seq<Refused>): Option<CapacityWait> {
    if row == [] then None
    else
      var last := row[|row| - 1];
      Some(NextCapacityWait(WaitAfter(row[..|row| - 1]), last.refusal, last.kind, last.nowMs, last.pollIntervalMs))
  }

  // The refusals from i on belong to one episode, and i begins it.
  ghost predicate Episode(row: seq<Refused>, i: nat) {
    && i < |row| && !Continues(WaitAfter(row[..i]), row[i].nowMs)
    && forall k :: i < k < |row| ==> Continues(WaitAfter(row[..k]), row[k].nowMs)
  }

  lemma {:induction false} CountedFromOne(row: seq<Refused>)
    ensures WaitAfter(row).Some? <==> row != []
    ensures WaitAfter(row).Some? ==> WaitAfter(row).value.refusals >= 1
  {
    if row != [] {
      CountedFromOne(row[..|row| - 1]);
    }
  }

  // The wait after one more refusal, in terms of the wait before it.
  lemma OneMoreRefusal(row: seq<Refused>)
    requires row != []
    ensures var n := |row| - 1;
            var before := WaitAfter(row[..n]);
            && WaitAfter(row).Some?
            && WaitAfter(row).value.refusals == (if Continues(before, row[n].nowMs) then before.value.refusals + 1 else 1)
            && WaitAfter(row).value.firstRefusedAtMs == (if Continues(before, row[n].nowMs) then before.value.firstRefusedAtMs else row[n].nowMs)
  {
    var n := |row| - 1;
    CountedFromOne(row[..n]);
    WaitExactly(WaitAfter(row[..n]), row[n].refusal, row[n].kind, row[n].nowMs, row[n].pollIntervalMs);
  }

  lemma EpisodeInit(row: seq<Refused>, i: nat)
    requires Episode(row, i) && i < |row| - 1
    ensures Episode(row[..|row| - 1], i)
  {
    assert forall k :: 0 <= k < |row| ==> row[..|row| - 1][..k] == row[..k];
  }

  // The wait counts the refusals of the running episode, from the one that began it.
  lemma {:induction false} EpisodeCounted(row: seq<Refused>, i: nat)
    requires Episode(row, i)
    ensures WaitAfter(row).Some? && WaitAfter(row).value.refusals == |row| - i
    ensures WaitAfter(row).value.firstRefusedAtMs == row[i].nowMs
  {
    OneMoreRefusal(row);
    if i < |row| - 1 {
      EpisodeInit(row, i);
      EpisodeCounted(row[..|row| - 1], i);
    }
  }

  // ---- while it holds ----

  predicate OfKind(p: Option<PendingEffect>, kind: IntentKind) { p.Some? && KindOf(p.value.effect) == Some(kind) }

  // What a wait for this kind keeps away: starts always, and creates when it was a create that was refused.
  predicate NotHeld(p: Option<PendingEffect>, kind: IntentKind) {
    !OfKind(p, StartIntent) && (kind == CreateIntent ==> !OfKind(p, CreateIntent))
  }

  // The journal carries a wait until at least this instant, of an episode with at least k refusals.
  predicate Carries(journal: Journal, kind: IntentKind, untilMs: int, k: int) {
    && journal.capacityWait.Some? && journal.capacityWait.value.retryAtMs >= untilMs && journal.capacityWait.value.refusals >= k
    && (kind == CreateIntent ==> journal.capacityWait.value.refusedEffect == CreateIntent)
  }

  // A deletion that is reconciled ends a wait for good.
  predicate DeleteReconciled(log: seq<Step>, step: Step) {
    IsSave(step, ReconciledSave) && HasPending(JournalOf(log)) && JournalOf(log).value.pendingEffect.value.effect.DeleteVm?
  }

  ghost predicate NoDeletes(log: seq<Step>, from: nat) {
    forall m :: from < m < |log| ==> !DeleteReconciled(log[..m], log[m])
  }

  // Since the refusal at this place of the log nothing of the kind has been pending, and the wait is still carried.
  ghost predicate HoldInv(log: seq<Step>, from: nat, kind: IntentKind, untilMs: int, k: int) {
    && from < |log| && IsSave(log[from], WaitingSave)
    && (forall m :: from <= m < |log| && log[m].Save? ==> NotHeld(log[m].state.pendingEffect, kind))
    && JournalOf(log).Some? && Carries(JournalOf(log).value.lifecycle, kind, untilMs, k)
  }

  lemma JournalHeld(log: seq<Step>, from: nat, kind: IntentKind, untilMs: int, k: int)
    requires HoldInv(log, from, kind, untilMs, k)
    ensures NotHeld(JournalOf(log).value.pendingEffect, kind)
  {
    LastSave(log, from);
  }

  lemma {:induction false} LastSave(log: seq<Step>, from: nat)
    requires from < |log| && log[from].Save?
    ensures exists m :: from <= m < |log| && log[m].Save? && JournalOf(log) == Some(log[m].state)
  {
    if log[|log| - 1].Emit? {
      LastSave(log[..|log| - 1], from);
      var m :| from <= m < |log| - 1 && log[..|log| - 1][m].Save? && JournalOf(log[..|log| - 1]) == Some(log[..|log| - 1][m].state);
      assert log[m].Save? && JournalOf(log) == Some(log[m].state);
    } else {
      assert JournalOf(log) == Some(log[|log| - 1].state);
    }
  }

  // Before that instant the table orders nothing of the kind.
  lemma HeldOrdersNothing(input: Input, kind: IntentKind, untilMs: int, k: int)
    requires Honest(input) && Carries(input.journal, kind, untilMs, k) && input.nowMs < untilMs
    ensures var effect := DecideLifecycle(input).effect;
            KindOf(effect) != Some(StartIntent) && (kind == CreateIntent ==> KindOf(effect) != Some(CreateIntent))
  {
    var effect := DecideLifecycle(input).effect;
    if effect.StartVm? {
      StartExactly(input, effect.generation, effect.deadlineMs);
    } else if effect.CreateVm? {
      CreateExactly(input, effect.generation, effect.reservedStartCount, effect.deadlineMs);
    }
  }

  lemma IntentHeld(prior: State, s: State, input: Input, kind: IntentKind, untilMs: int, k: int)
    requires Honest(input) && LegalIntent(Some(prior), s, input) && NotHeld(prior.pendingEffect, kind)
    requires Carries(prior.lifecycle, kind, untilMs, k) && input.nowMs < untilMs
    ensures NotHeld(s.pendingEffect, kind) && Carries(s.lifecycle, kind, untilMs, k)
  {
    if !HasPending(Some(prior)) {
      HeldOrdersNothing(input.(journal := Merged(input.journal)), kind, untilMs, k);
    }
  }

  // A create refused during the wait for a start carries the wait on.
  lemma RefusedAgain(prior: State, s: State, refusal: CapacityRefusal, input: Input, kind: IntentKind, untilMs: int, k: int, sinceMs: int)
    requires prior.pendingEffect.Some? && prior.pendingEffect.value.effect.CreateVm? && kind == StartIntent
    requires Some(s) == WaitingState(prior, refusal, CreateIntent, input) && k >= 1
    requires Carries(prior.lifecycle, kind, untilMs, k) && sinceMs <= input.nowMs < untilMs
    requires untilMs <= sinceMs + Max(input.config.timing.pollIntervalMs, HoldMs(k))
    ensures NotHeld(s.pendingEffect, kind) && Carries(s.lifecycle, kind, untilMs, k)
  {
    WaitExactly(prior.lifecycle.capacityWait, refusal, CreateIntent, input.nowMs, input.config.timing.pollIntervalMs);
  }

  lemma WaitingHeld(first: bool, log: seq<Step>, prior: State, s: State, input: Input, env: Environment,
                    kind: IntentKind, untilMs: int, k: int, sinceMs: int)
    requires prior.pendingEffect.Some? && LegalWaiting(first, log, prior, s, input, env)
    requires NotHeld(prior.pendingEffect, kind) && Carries(prior.lifecycle, kind, untilMs, k) && k >= 1
    requires sinceMs <= input.nowMs < untilMs && untilMs <= sinceMs + Max(input.config.timing.pollIntervalMs, HoldMs(k))
    ensures NotHeld(s.pendingEffect, kind) && Carries(s.lifecycle, kind, untilMs, k)
  {
    var emitted := LastEmitReply(log);
    if emitted.Some? && emitted.value.ExecRefused? && Some(s) == WaitingState(prior, emitted.value.refusal, CreateIntent, input) {
      RefusedAgain(prior, s, emitted.value.refusal, input, kind, untilMs, k, sinceMs);
    } else {
      RefusedAgain(prior.(readbacks := s.readbacks), s, env.reconcile.capacityRefusal.value, input, kind, untilMs, k, sinceMs);
    }
  }

  // A failure brings back only an effect that was pending since the refusal.
  lemma AmbiguousHeld(log: seq<Step>, s: State, from: nat, kind: IntentKind, untilMs: int, k: int)
    requires HoldInv(log, from, kind, untilMs, k)
    requires LateFailure(log, s) || (HasPending(JournalOf(log)) && s == AmbiguousState(JournalOf(log).value))
    ensures NotHeld(s.pendingEffect, kind) && Carries(s.lifecycle, kind, untilMs, k)
  {
    JournalHeld(log, from, kind, untilMs, k);
    if LateFailure(log, s) {
      assert from < |log| - 3;
      assert JournalOf(log) == Some(log[|log| - 1].state);
    }
  }

  // Every write before that instant, but the reconciliation of a deletion, keeps the hold.
  lemma SaveKeepsHold(first: bool, log: seq<Step>, step: Step, input: Input, env: Environment,
                      from: nat, kind: IntentKind, untilMs: int, k: int, sinceMs: int)
    requires HoldInv(log, from, kind, untilMs, k) && k >= 1 && Honest(input) && step.Save? && !DeleteReconciled(log, step)
    requires LegalSave(first, log, step.kind, step.state, input, env)
    requires sinceMs <= input.nowMs < untilMs && untilMs <= sinceMs + Max(input.config.timing.pollIntervalMs, HoldMs(k))
    ensures NotHeld(step.state.pendingEffect, kind) && Carries(step.state.lifecycle, kind, untilMs, k)
  {
    JournalHeld(log, from, kind, untilMs, k);
    var prior, s := JournalOf(log).value, step.state;
    match step.kind
    case IntentSave => IntentHeld(prior, s, input, kind, untilMs, k);
    case WaitingSave => WaitingHeld(first, log, prior, s, input, env, kind, untilMs, k, sinceMs);
    case AmbiguousSave => AmbiguousHeld(log, s, from, kind, untilMs, k);
    case ObservedSave =>
    case DirectStopSave =>
    case _ =>
  }

  lemma StepKeepsHold(first: bool, log: seq<Step>, step: Step, input: Input, env: Environment,
                      from: nat, kind: IntentKind, untilMs: int, k: int, sinceMs: int)
    requires HoldInv(log, from, kind, untilMs, k) && k >= 1 && Honest(input) && !DeleteReconciled(log, step)
    requires Legal(first, log, step, input, env)
    requires sinceMs <= input.nowMs < untilMs && untilMs <= sinceMs + Max(input.config.timing.pollIntervalMs, HoldMs(k))
    ensures HoldInv(log + [step], from, kind, untilMs, k)
  {
    JournalOfSnoc(log, step);
    if step.Save? {
      SaveKeepsHold(first, log, step, input, env, from, kind, untilMs, k, sinceMs);
    }
  }

  // ---- over a run ----

  // What a run keeps: the hold, until a deletion is reconciled.
  ghost predicate RunHold(log: seq<Step>, from: nat, kind: IntentKind, untilMs: int, k: int) {
    NoDeletes(log, from) ==> HoldInv(log, from, kind, untilMs, k)
  }

  lemma StepKeepsRunHold(first: bool, log: seq<Step>, step: Step, input: Input, env: Environment,
                         from: nat, kind: IntentKind, untilMs: int, k: int, sinceMs: int)
    requires RunHold(log, from, kind, untilMs, k) && k >= 1 && Honest(input) && Legal(first, log, step, input, env)
    requires sinceMs <= input.nowMs < untilMs && untilMs <= sinceMs + Max(input.config.timing.pollIntervalMs, HoldMs(k))
    requires from < |log|
    ensures RunHold(log + [step], from, kind, untilMs, k)
  {
    var longer := log + [step];
    if NoDeletes(longer, from) {
      assert longer[..|log|] == log && !DeleteReconciled(longer[..|log|], longer[|log|]);
      assert forall m :: 0 <= m < |log| ==> longer[..m] == log[..m] && longer[m] == log[m];
      StepKeepsHold(first, log, step, input, env, from, kind, untilMs, k, sinceMs);
    }
  }

  // An act before the end of the wait.
  predicate Early(act: Act, untilMs: int, k: int, sinceMs: int) {
    && sinceMs <= act.look.nowMs < untilMs
    && untilMs <= sinceMs + Max(act.look.config.timing.pollIntervalMs, HoldMs(k))
  }

  lemma ActKeepsHold(w: World, act: Act, from: nat, kind: IntentKind, untilMs: int, k: int, sinceMs: int)
    requires Sound(w.log, w.clock) && Admissible(w, act) && Early(act, untilMs, k, sinceMs) && k >= 1
    requires from < |w.log| && RunHold(w.log, from, kind, untilMs, k)
    ensures from < |Perform(w, act).log| && RunHold(Perform(w, act).log, from, kind, untilMs, k)
  {
    if Observe(JournalOf(w.log), w.ledger, act.look).Some? {
      var input := Observe(JournalOf(w.log), w.ledger, act.look).value.0;
      ActIsPath(w, act);
      var inv := (f: bool, l: seq<Step>) => from < |l| && RunHold(l, from, kind, untilMs, k);
      forall f, l, step | Sound(l, input.nowMs) && inv(f, l) && Legal(f, l, step, input, EnvOf(act)) ensures inv(false, l + [step]) {
        StepKeepsRunHold(f, l, step, input, EnvOf(act), from, kind, untilMs, k, sinceMs);
      }
      ActInduction(inv, w, act);
    }
  }

  // ---- what a refusal writes ----

  // A refusal at this instant leaves nothing pending and a wait counted from it.
  predicate FreshWait(s: State, nowMs: int, pollIntervalMs: int) {
    && s.pendingEffect.None? && s.lifecycle.capacityWait.Some?
    && var wait := s.lifecycle.capacityWait.value;
       && wait.lastRefusedAtMs == nowMs && wait.refusals >= 1
       && wait.retryAtMs == nowMs + Max(pollIntervalMs, HoldMs(wait.refusals))
  }

  lemma WaitingFresh(s: State, w: State, refusal: CapacityRefusal, kind: IntentKind, input: Input)
    requires s.pendingEffect.Some? && Some(w) == WaitingState(s, refusal, kind, input)
    requires s.lifecycle.capacityWait.Some? ==> s.lifecycle.capacityWait.value.refusals >= 1
    ensures FreshWait(w, input.nowMs, input.config.timing.pollIntervalMs)
  {
    WaitExactly(s.lifecycle.capacityWait, refusal, kind, input.nowMs, input.config.timing.pollIntervalMs);
  }

  lemma WaitingStepFresh(first: bool, log: seq<Step>, prior: State, s: State, input: Input, env: Environment)
    requires prior.pendingEffect.Some? && LegalWaiting(first, log, prior, s, input, env) && GoodState(prior)
    ensures FreshWait(s, input.nowMs, input.config.timing.pollIntervalMs)
  {
    var kind, emitted := KindOf(prior.pendingEffect.value.effect).value, LastEmitReply(log);
    if emitted.Some? && emitted.value.ExecRefused? && Some(s) == WaitingState(prior, emitted.value.refusal, kind, input) {
      WaitingFresh(prior, s, emitted.value.refusal, kind, input);
    } else if prior.pendingEffect.value.effect.StartVm? {
      WaitingFresh(prior.(lifecycle := Merged(input.journal), readbacks := s.readbacks), s, env.reconcile.capacityRefusal.value, StartIntent, input);
    } else {
      WaitingFresh(prior.(readbacks := s.readbacks), s, env.reconcile.capacityRefusal.value, CreateIntent, input);
    }
  }

  // The refusals written from this place of the log on are those of this instant.
  ghost predicate FreshFrom(log: seq<Step>, from: nat, nowMs: int, pollIntervalMs: int) {
    forall m :: from <= m < |log| && IsSave(log[m], WaitingSave) ==> FreshWait(log[m].state, nowMs, pollIntervalMs)
  }

  lemma StepKeepsFresh(first: bool, log: seq<Step>, step: Step, input: Input, env: Environment, from: nat)
    requires AllGood(log) && FreshFrom(log, from, input.nowMs, input.config.timing.pollIntervalMs) && Legal(first, log, step, input, env)
    ensures FreshFrom(log + [step], from, input.nowMs, input.config.timing.pollIntervalMs)
  {
    if IsSave(step, WaitingSave) {
      GoodJournal(log);
      WaitingStepFresh(first, log, JournalOf(log).value, step.state, input, env);
    }
  }

  lemma ActWritesFresh(w: World, act: Act)
    requires Sound(w.log, w.clock) && Admissible(w, act)
    ensures FreshFrom(Perform(w, act).log, |w.log|, act.look.nowMs, act.look.config.timing.pollIntervalMs)
  {
    if Observe(JournalOf(w.log), w.ledger, act.look).Some? {
      var input := Observe(JournalOf(w.log), w.ledger, act.look).value.0;
      var now, poll := act.look.nowMs, act.look.config.timing.pollIntervalMs;
      ActIsPath(w, act);
      var inv := (f: bool, l: seq<Step>) => FreshFrom(l, |w.log|, now, poll);
      forall f, l, step | Sound(l, input.nowMs) && inv(f, l) && Legal(f, l, step, input, EnvOf(act)) ensures inv(false, l + [step]) {
        StepKeepsFresh(f, l, step, input, EnvOf(act), |w.log|);
      }
      ActInduction(inv, w, act);
    }
  }

  // ---- the law ----

  // An act ended with a refusal that left this wait.
  predicate EndsRefused(before: seq<Step>, after: seq<Step>, wait: CapacityWait) {
    && |after| > |before| && IsSave(after[|after| - 1], WaitingSave)
    && after[|after| - 1].state.lifecycle.capacityWait == Some(wait)
  }

  lemma HoldBegins(log: seq<Step>, wait: CapacityWait, nowMs: int, pollIntervalMs: int, untilMs: int)
    requires log != [] && IsSave(log[|log| - 1], WaitingSave) && FreshWait(log[|log| - 1].state, nowMs, pollIntervalMs)
    requires log[|log| - 1].state.lifecycle.capacityWait == Some(wait)
    ensures wait.retryAtMs == nowMs + Max(pollIntervalMs, HoldMs(wait.refusals)) && wait.refusals >= 1
    ensures untilMs <= wait.retryAtMs ==> HoldInv(log, |log| - 1, wait.refusedEffect, untilMs, wait.refusals)
  {
    assert JournalOf(log) == Some(log[|log| - 1].state);
  }

  lemma RefusalHolds(w: World, act: Act, v: World, wait: CapacityWait, untilMs: int)
    requires Moves(w, act, v) && EndsRefused(w.log, v.log, wait) && untilMs <= wait.retryAtMs
    ensures wait.refusals >= 1 && v.log != [] && RunHold(v.log, |v.log| - 1, wait.refusedEffect, untilMs, wait.refusals)
    ensures wait.retryAtMs == act.look.nowMs + Max(act.look.config.timing.pollIntervalMs, HoldMs(wait.refusals))
  {
    ActWritesFresh(w, act);
    LastIsFresh(w.log, v.log, act.look.nowMs, act.look.config.timing.pollIntervalMs);
    HoldBegins(v.log, wait, act.look.nowMs, act.look.config.timing.pollIntervalMs, untilMs);
  }

  lemma LastIsFresh(before: seq<Step>, after: seq<Step>, nowMs: int, pollIntervalMs: int)
    requires |after| > |before| && IsSave(after[|after| - 1], WaitingSave) && FreshFrom(after, |before|, nowMs, pollIntervalMs)
    ensures FreshWait(after[|after| - 1].state, nowMs, pollIntervalMs)
  {
  }

  // From the refusal on, over acts that come before the end of the wait.
  lemma HoldOverActs(ws: seq<World>, acts: seq<Act>, i: nat, n: nat, from: nat, kind: IntentKind, untilMs: int, k: int, sinceMs: int)
    requires Trace(ws, acts) && i <= n <= |acts| && k >= 1 && from < |ws[i].log| && RunHold(ws[i].log, from, kind, untilMs, k)
    requires forall m :: i <= m < n ==> Early(acts[m], untilMs, k, sinceMs)
    ensures from < |ws[n].log| && RunHold(ws[n].log, from, kind, untilMs, k)
  {
    var given := (act: Act) => Early(act, untilMs, k, sinceMs);
    var inv := (w: World) => from < |w.log| && RunHold(w.log, from, kind, untilMs, k);
    forall w, act, v | Moves(w, act, v) && given(act) && inv(w) ensures inv(v) {
      ActKeepsHold(w, act, from, kind, untilMs, k, sinceMs);
    }
    TraceInduction(ws, acts, given, inv, i, n);
  }

  // A step that journals or calls what the wait keeps away.
  predicate Repeats(step: Step, kind: IntentKind) {
    (IsSave(step, IntentSave) && OfKind(step.state.pendingEffect, kind)) || (step.Emit? && KindOf(step.effect) == Some(kind))
  }

  // Each call carries the effect its emitting record has pending.
  predicate EmitsFollow(log: seq<Step>) {
    forall m :: 0 <= m < |log| && log[m].Emit? ==>
      m > 0 && log[m - 1].Save? && log[m - 1].state.pendingEffect.Some? && log[m].effect == log[m - 1].state.pendingEffect.value.effect
  }

  lemma HeldNeverRepeats(log: seq<Step>, from: nat, kind: IntentKind, untilMs: int, k: int, m: nat)
    requires HoldInv(log, from, kind, untilMs, k) && from < m < |log| && EmitsFollow(log)
    ensures !Repeats(log[m], kind)
  {
    if log[m].Emit? {
      var p := log[m - 1].state.pendingEffect;
      assert log[m - 1].Save? && NotHeld(p, kind);
      assert OfKind(p, kind) <==> KindOf(log[m].effect) == Some(kind);
    }
  }

  lemma StepKeepsFollow(first: bool, log: seq<Step>, step: Step, input: Input, env: Environment)
    requires EmitsFollow(log) && Legal(first, log, step, input, env)
    ensures EmitsFollow(log + [step])
  {
    assert forall m :: 0 <= m < |log| ==> (log + [step])[m] == log[m];
  }

  lemma ActKeepsFollow(w: World, act: Act)
    requires Sound(w.log, w.clock) && Admissible(w, act) && EmitsFollow(w.log)
    ensures EmitsFollow(Perform(w, act).log)
  {
    if Observe(JournalOf(w.log), w.ledger, act.look).Some? {
      var input := Observe(JournalOf(w.log), w.ledger, act.look).value.0;
      var inv := (f: bool, l: seq<Step>) => EmitsFollow(l);
      forall f, l, step | Sound(l, input.nowMs) && inv(f, l) && Legal(f, l, step, input, EnvOf(act)) ensures inv(false, l + [step]) {
        StepKeepsFollow(f, l, step, input, EnvOf(act));
      }
      ActInduction(inv, w, act);
    }
  }

  lemma FollowOverActs(ws: seq<World>, acts: seq<Act>, n: nat)
    requires Trace(ws, acts) && n <= |acts| && EmitsFollow(ws[0].log)
    ensures EmitsFollow(ws[n].log)
  {
    var inv := (w: World) => EmitsFollow(w.log);
    forall w, act, v | Moves(w, act, v) && inv(w) ensures inv(v) {
      ActKeepsFollow(w, act);
    }
    TraceInduction(ws, acts, (act: Act) => true, inv, 0, n);
  }

  lemma HoldMeansNoRepeat(log: seq<Step>, from: nat, kind: IntentKind, untilMs: int, k: int)
    requires from < |log| && RunHold(log, from, kind, untilMs, k) && NoDeletes(log, from) && EmitsFollow(log)
    ensures forall m :: from < m < |log| ==> !Repeats(log[m], kind)
  {
    forall m | from < m < |log| ensures !Repeats(log[m], kind) {
      HeldNeverRepeats(log, from, kind, untilMs, k, m);
    }
  }

  lemma TraceRefused(ws: seq<World>, acts: seq<Act>, i: nat, wait: CapacityWait, untilMs: int)
    requires Trace(ws, acts) && i < |acts| && EndsRefused(ws[i].log, ws[i + 1].log, wait) && untilMs <= wait.retryAtMs
    ensures var log := ws[i + 1].log;
            wait.refusals >= 1 && log != [] && RunHold(log, |log| - 1, wait.refusedEffect, untilMs, wait.refusals)
    ensures wait.retryAtMs == acts[i].look.nowMs + Max(acts[i].look.config.timing.pollIntervalMs, HoldMs(wait.refusals))
  {
    assert MoveAt(ws, acts, i);
    RefusalHolds(ws[i], acts[i], ws[i + 1], wait, untilMs);
  }

  // The same of the worlds of a run.
  lemma TraceNotRepeated(ws: seq<World>, acts: seq<Act>, i: nat, n: nat, wait: CapacityWait, untilMs: int)
    requires Trace(ws, acts) && ws[0].log == [] && i < n <= |acts| && EndsRefused(ws[i].log, ws[i + 1].log, wait)
    requires untilMs <= wait.retryAtMs && forall m :: i < m < n ==> Early(acts[m], untilMs, wait.refusals, acts[i].look.nowMs)
    requires NoDeletes(ws[n].log, |ws[i + 1].log| - 1)
    ensures forall m :: |ws[i + 1].log| <= m < |ws[n].log| ==> !Repeats(ws[n].log[m], wait.refusedEffect)
  {
    TraceRefused(ws, acts, i, wait, untilMs);
    var from := |ws[i + 1].log| - 1;
    HoldOverActs(ws, acts, i + 1, n, from, wait.refusedEffect, untilMs, wait.refusals, acts[i].look.nowMs);
    FollowOverActs(ws, acts, n);
    HoldMeansNoRepeat(ws[n].log, from, wait.refusedEffect, untilMs, wait.refusals);
  }

  // In every run: after act i ended with a refusal, no step up to act n, all of them before this instant, journals or
  // calls the refused kind of effect, unless a deletion was reconciled in between.
  lemma RefusedNotRepeated(acts: seq<Act>, i: nat, n: nat, wait: CapacityWait, untilMs: int)
    requires Allowed(acts) && i < n <= |acts| && EndsRefused(After(acts[..i]).log, After(acts[..i + 1]).log, wait)
    requires untilMs <= wait.retryAtMs && forall m :: i < m < n ==> Early(acts[m], untilMs, wait.refusals, acts[i].look.nowMs)
    requires NoDeletes(After(acts[..n]).log, |After(acts[..i + 1]).log| - 1)
    ensures forall m :: |After(acts[..i + 1]).log| <= m < |After(acts[..n]).log| ==> !Repeats(After(acts[..n]).log[m], wait.refusedEffect)
  {
    RunTraced(acts);
    TraceNotRepeated(Worlds(acts), acts, i, n, wait, untilMs);
  }

  // Under one poll interval, that instant is the retry time of the wait.
  lemma HeldUntilRetry(acts: seq<Act>, i: nat, n: nat, wait: CapacityWait)
    requires Allowed(acts) && i < n <= |acts| && EndsRefused(After(acts[..i]).log, After(acts[..i + 1]).log, wait)
    requires forall m :: i < m < n ==> acts[m].look.config.timing.pollIntervalMs == acts[i].look.config.timing.pollIntervalMs
    requires forall m :: i < m < n ==> acts[i].look.nowMs <= acts[m].look.nowMs < wait.retryAtMs
    requires NoDeletes(After(acts[..n]).log, |After(acts[..i + 1]).log| - 1)
    ensures forall m :: |After(acts[..i + 1]).log| <= m < |After(acts[..n]).log| ==> !Repeats(After(acts[..n]).log[m], wait.refusedEffect)
  {
    RunTraced(acts);
    TraceRefused(Worlds(acts), acts, i, wait, wait.retryAtMs);
    RefusedNotRepeated(acts, i, n, wait, wait.retryAtMs);
  }

  lemma TraceTwoMinutes(ws: seq<World>, acts: seq<Act>, i: nat, n: nat, wait: CapacityWait)
    requires Trace(ws, acts) && ws[0].log == [] && i < n <= |acts| && EndsRefused(ws[i].log, ws[i + 1].log, wait)
    requires forall m :: i < m < n ==> acts[i].look.nowMs <= acts[m].look.nowMs < acts[i].look.nowMs + 120_000
    requires NoDeletes(ws[n].log, |ws[i + 1].log| - 1)
    ensures forall m :: |ws[i + 1].log| <= m < |ws[n].log| ==> !Repeats(ws[n].log[m], wait.refusedEffect)
  {
    TraceRefused(ws, acts, i, wait, wait.retryAtMs);
    TraceNotRepeated(ws, acts, i, n, wait, acts[i].look.nowMs + 120_000);
  }

  // Whatever the poll interval: not within two minutes.
  lemma HeldTwoMinutes(acts: seq<Act>, i: nat, n: nat, wait: CapacityWait)
    requires Allowed(acts) && i < n <= |acts| && EndsRefused(After(acts[..i]).log, After(acts[..i + 1]).log, wait)
    requires forall m :: i < m < n ==> acts[i].look.nowMs <= acts[m].look.nowMs < acts[i].look.nowMs + 120_000
    requires NoDeletes(After(acts[..n]).log, |After(acts[..i + 1]).log| - 1)
    ensures forall m :: |After(acts[..i + 1]).log| <= m < |After(acts[..n]).log| ==> !Repeats(After(acts[..n]).log[m], wait.refusedEffect)
  {
    RunTraced(acts);
    TraceTwoMinutes(Worlds(acts), acts, i, n, wait);
  }
}
