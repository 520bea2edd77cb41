/** The whole recorded history of idle evidence and resumed admissions, of which the journal keeps a window. */
module History {
  import opened Contracts
  import opened Lifecycle
  import opened Controller
  import opened Accounting
  import opened Journaling
  import opened Invariants

  // Every idle observation ever made durable, in the order of recording.
  function Recorded(log: seq<Step>): seq<IdleObservation> {
    if log == [] then []
    else
      var before := Recorded(log[..|log| - 1]);
      match log[|log| - 1]
      case Emit(_, _) => before
      case Save(_, s) =>
        var window := s.lifecycle.idleObservations;
        if window != [] && (before == [] || before[|before| - 1] != window[|window| - 1])
        then before + [window[|window| - 1]] else before
  }

  // A resume-admission intent: how much evidence preceded it, and the generation it resumed.
  datatype Mark = Mark(at: nat, generation: int)

  function Resumes(log: seq<Step>): seq<Mark> {
    if log == [] then []
    else
      var before, last := Resumes(log[..|log| - 1]), log[|log| - 1];
      if last.Save? && last.kind == IntentSave && last.state.pendingEffect.Some?
         && last.state.pendingEffect.value.effect.ResumeAdmission?
      then before + [Mark(|Recorded(log)|, last.state.lifecycle.startCount)] else before
  }

  ghost predicate Ordered(s: seq<IdleObservation>) {
    && InTimeOrder(s)
    && forall i, j :: 0 <= i <= j < |s| ==> s[i].generation <= s[j].generation
  }

  // After a resume the generation cannot earn a stop on older evidence: an interruption is already
  // recorded, or the next drain will record one, or a newer generation has been observed.
  ghost predicate Closed(mark: Mark, evidence: seq<IdleObservation>, journal: Journal) {
    && 1 <= mark.at <= |evidence| && evidence[mark.at - 1].generation == mark.generation
    && (|| (exists k :: mark.at <= k < |evidence| && evidence[k].generation == mark.generation && !evidence[k].complete)
        || (evidence[|evidence| - 1].generation == mark.generation && evidence[|evidence| - 1].complete
            && (journal.state != Draining || journal.startCount > mark.generation))
        || (exists k :: mark.at <= k < |evidence| && evidence[k].generation > mark.generation))
  }

  ghost predicate EvidenceInv(evidence: seq<IdleObservation>, marks: seq<Mark>, journal: Journal, nowMs: int) {
    && journal.idleObservations == Latest(evidence)
    && Ordered(evidence)
    && (forall e :: e in evidence ==> e.observedAtMs <= nowMs && e.generation <= journal.startCount)
    && (forall m :: m in marks ==> Closed(m, evidence, journal))
  }

  ghost predicate HistoryInv(log: seq<Step>, nowMs: int) {
    var j := JournalOf(log);
    if j.Some? then EvidenceInv(Recorded(log), Resumes(log), j.value.lifecycle, nowMs)
    else Recorded(log) == [] && Resumes(log) == []
  }

  // ---- the window keeps the newest entries ----

  lemma LatestOfLatest<T>(s: seq<T>, x: T)
    ensures Latest(Latest(s) + [x]) == Latest(s + [x])
  {
    if |s| > 100 {
      assert Latest(s) + [x] == (s + [x])[|s| - 100..];
    }
  }

  lemma LatestLast<T>(s: seq<T>)
    ensures s != [] ==> Latest(s) != [] && Latest(s)[|Latest(s)| - 1] == s[|s| - 1]
    ensures |Latest(Latest(s))| == |Latest(s)| && Latest(Latest(s)) == Latest(s)
  {
  }

  // What one reading adds to the evidence.
  function NewEntries(journal: Journal, input: Input): seq<IdleObservation> {
    var next := AdvanceIdle(journal, input.queue, input.guest, input.nowMs);
    if |next| > |journal.idleObservations| then [next[|next| - 1]] else []
  }

  // One entry of the current generation, younger than all the others, keeps the evidence.
  lemma EntryKeepsEvidence(evidence: seq<IdleObservation>, marks: seq<Mark>, saved: Journal, entry: IdleObservation, next: Journal, nowMs: int)
    requires EvidenceInv(evidence, marks, saved, nowMs) && nowMs <= entry.observedAtMs && entry.generation == saved.startCount
    requires evidence != [] ==> evidence[|evidence| - 1].observedAtMs < entry.observedAtMs
    requires next.state == saved.state && next.startCount == saved.startCount
    requires next.idleObservations == Latest(evidence + [entry])
    ensures EvidenceInv(evidence + [entry], marks, next, entry.observedAtMs)
  {
    assert evidence != [] ==> evidence[|evidence| - 1] in evidence;
    OrderedSnoc(evidence, entry);
    forall m | m in marks ensures Closed(m, evidence + [entry], next) {
      assert evidence[m.at - 1] in evidence;
      ExtendClosed(m, evidence, entry, saved, next);
    }
  }

  // A journal that moves neither its window nor towards draining keeps the evidence.
  lemma MoveKeepsEvidence(evidence: seq<IdleObservation>, marks: seq<Mark>, saved: Journal, next: Journal, nowMs: int, laterMs: int)
    requires EvidenceInv(evidence, marks, saved, nowMs) && nowMs <= laterMs
    requires next.idleObservations == saved.idleObservations
    requires next.startCount >= saved.startCount
    requires next.state == Draining ==> saved.state == Draining
    ensures EvidenceInv(evidence, marks, next, laterMs)
  {
    forall m | m in marks ensures Closed(m, evidence, next) {
      assert Closed(m, evidence, saved);
    }
  }

  // A reading keeps the evidence in order and every earlier resume closed.
  lemma ReadingKeepsEvidence(evidence: seq<IdleObservation>, marks: seq<Mark>, saved: Journal, input: Input, nowMs: int)
    requires EvidenceInv(evidence, marks, saved, nowMs) && SeenFrom(saved, input)
    requires nowMs <= input.nowMs
    ensures EvidenceInv(evidence + NewEntries(saved, input), marks, Merged(input.journal), input.nowMs)
  {
    LatestLast(evidence);
    var added := NewEntries(saved, input);
    if added == [] {
      assert evidence + added == evidence;
      MoveKeepsEvidence(evidence, marks, saved, Merged(input.journal), nowMs, input.nowMs);
    } else {
      LatestOfLatest(evidence, added[0]);
      assert added == [added[0]];
      EntryKeepsEvidence(evidence, marks, saved, added[0], Merged(input.journal), nowMs);
    }
  }

  lemma OrderedSnoc(evidence: seq<IdleObservation>, entry: IdleObservation)
    requires Ordered(evidence)
    requires evidence != [] ==> evidence[|evidence| - 1].observedAtMs < entry.observedAtMs
    requires evidence != [] ==> evidence[|evidence| - 1].generation <= entry.generation
    ensures Ordered(evidence + [entry])
  {
    forall i | 0 <= i < |evidence| ensures evidence[i].observedAtMs < entry.observedAtMs && evidence[i].generation <= entry.generation {
      assert evidence[i].observedAtMs <= evidence[|evidence| - 1].observedAtMs;
      assert evidence[i].generation <= evidence[|evidence| - 1].generation;
    }
  }

  lemma ExtendClosed(mark: Mark, evidence: seq<IdleObservation>, entry: IdleObservation, saved: Journal, next: Journal)
    requires Closed(mark, evidence, saved) && entry.generation == saved.startCount >= mark.generation
    requires next.state == saved.state && next.startCount == saved.startCount
    ensures Closed(mark, evidence + [entry], next)
  {
    var longer := evidence + [entry];
    assert longer[|evidence|] == entry;
    if k :| mark.at <= k < |evidence| && evidence[k].generation == mark.generation && !evidence[k].complete {
      assert longer[k] == evidence[k];
    } else if k :| mark.at <= k < |evidence| && evidence[k].generation > mark.generation {
      assert longer[k] == evidence[k];
    }
  }

  // Only a fresh drain of the resumed generation could reopen a resume, and that reading interrupts it.
  lemma DecisionKeepsEvidence(evidence: seq<IdleObservation>, marks: seq<Mark>, base: Journal, decision: Decision, nowMs: int)
    requires EvidenceInv(evidence, marks, base, nowMs)
    requires decision.effect.StartVm? ==> decision.effect.generation == base.startCount + 1
    requires decision.effect.BeginDrain? ==>
               evidence == [] || evidence[|evidence| - 1].generation != base.startCount || !evidence[|evidence| - 1].complete
    requires !decision.effect.BeginDrain? ==> decision.state != Draining
    ensures EvidenceInv(evidence, marks, ApplyDecision(base, decision, nowMs), nowMs)
  {
    var next := ApplyDecision(base, decision, nowMs);
    forall m | m in marks ensures Closed(m, evidence, next) {
      assert Closed(m, evidence, base);
    }
  }

  // Outside the states in which the controller believes its guest is up, a running VM still carries the
  // journaled generation: nobody but the controller starts it.
  predicate OnlyControllerStarts(input: Input) {
    input.provider.vmStatus == VmRunning && input.guest.grant.Some? && !GuestUp(input.journal.state) ==>
      input.guest.grant.value.generation == input.journal.startCount
  }

  lemma DrainInterrupts(saved: Journal, input: Input)
    requires SeenFrom(saved, input) && OnlyControllerStarts(input)
    requires DecideLifecycle(input.(journal := Merged(input.journal))).effect.BeginDrain?
    ensures var next := AdvanceIdle(saved, input.queue, input.guest, input.nowMs);
            next == [] || next[|next| - 1].generation != saved.startCount || !next[|next| - 1].complete
  {
    DrainNeedsWorkingGuest(input.(journal := Merged(input.journal)));
  }

  // A resume is decided on a drained guest, whose idle reading is recorded with it.
  lemma ResumeIsEvident(saved: Journal, input: Input)
    requires SeenFrom(saved, input) && DecideLifecycle(input.(journal := Merged(input.journal))).effect.ResumeAdmission?
    ensures |NewEntries(saved, input)| == 1 && NewEntries(saved, input)[0].complete
    ensures NewEntries(saved, input)[0].generation == saved.startCount
  {
    ResumeNeedsDrainedGuest(input.(journal := Merged(input.journal)));
  }

  // The journal enters draining exactly with a drain order.
  predicate DrainsExactly(d: Decision) { !d.effect.NoEffect? ==> (d.state == Draining <==> d.effect.BeginDrain?) }

  lemma WorkStates(input: Input)
    ensures DrainsExactly(DecideWork(input))
  {
  }

  lemma OwnedStates(input: Input)
    ensures DrainsExactly(DecideOwned(input))
  {
    WorkStates(input);
  }

  lemma DecisionStates(input: Input)
    ensures DrainsExactly(DecideLifecycle(input))
  {
    OwnedStates(input);
  }

  // ---- one durable step ----

  lemma HistorySnoc(log: seq<Step>, step: Step)
    ensures step.Emit? ==> Recorded(log + [step]) == Recorded(log) && Resumes(log + [step]) == Resumes(log)
    ensures step.Save? && step.kind != IntentSave ==> Resumes(log + [step]) == Resumes(log)
    ensures step.Save? && step.state.lifecycle.idleObservations == Latest(Recorded(log)) ==> Recorded(log + [step]) == Recorded(log)
    ensures step.Save? && step.state.lifecycle.idleObservations == [] ==> Recorded(log + [step]) == Recorded(log)
  {
    assert (log + [step])[..|log|] == log;
    LatestLast(Recorded(log));
  }

  // A write whose window ends in a younger entry records that entry.
  lemma EntryRecorded(log: seq<Step>, step: Step, entry: IdleObservation)
    requires step.Save? && step.state.lifecycle.idleObservations == Latest(Latest(Recorded(log)) + [entry])
    requires Recorded(log) != [] ==> Recorded(log)[|Recorded(log)| - 1].observedAtMs < entry.observedAtMs
    ensures Recorded(log + [step]) == Recorded(log) + [entry]
  {
    assert (log + [step])[..|log|] == log;
    LatestLast(Latest(Recorded(log)) + [entry]);
  }

  // What a durable write that took a reading records.
  lemma ReadingRecorded(log: seq<Step>, step: Step, saved: Journal, input: Input, nowMs: int)
    requires step.Save? && EvidenceInv(Recorded(log), Resumes(log), saved, nowMs) && SeenFrom(saved, input)
    requires step.state.lifecycle.idleObservations == Merged(input.journal).idleObservations
    ensures Recorded(log + [step]) == Recorded(log) + NewEntries(saved, input)
  {
    var evidence, added := Recorded(log), NewEntries(saved, input);
    LatestLast(evidence);
    if added != [] {
      assert added == [added[0]];
      EntryRecorded(log, step, added[0]);
    } else {
      assert evidence + added == evidence;
      HistorySnoc(log, step);
    }
  }

  // The journal a decision is recorded on keeps the evidence, and the recording adds one reading to it.
  lemma BaseKeepsEvidence(log: seq<Step>, step: Step, prior: State, input: Input, nowMs: int)
    requires HistoryInv(log, nowMs) && JournalOf(log) == Some(prior) && SeenFrom(prior.lifecycle, input) && nowMs <= input.nowMs
    requires step.Save? && step.state.lifecycle.idleObservations == Merged(input.journal).idleObservations
    ensures Recorded(log + [step]) == Recorded(log) + NewEntries(prior.lifecycle, input)
    ensures EvidenceInv(Recorded(log + [step]), Resumes(log), Merged(input.journal), input.nowMs)
  {
    ReadingKeepsEvidence(Recorded(log), Resumes(log), prior.lifecycle, input, nowMs);
    ReadingRecorded(log, step, prior.lifecycle, input, nowMs);
  }

  lemma RetireKeepsHistory(log: seq<Step>, prior: State, s: State, input: Input, nowMs: int)
    requires HistoryInv(log, nowMs) && JournalOf(log) == Some(prior) && prior.pendingEffect.Some?
    requires LegalIntent(Some(prior), s, input) && nowMs <= input.nowMs
    ensures HistoryInv(log + [Save(IntentSave, s)], input.nowMs)
  {
    var step := Save(IntentSave, s);
    JournalOfSnoc(log, step);
    assert (log + [step])[..|log|] == log;
    BaseKeepsEvidence(log, step, prior, input, nowMs);
    MoveKeepsEvidence(Recorded(log + [step]), Resumes(log), Merged(input.journal), s.lifecycle, input.nowMs, input.nowMs);
  }

  // What a recorded choice owes to the table, so that the rest need not look into it.
  lemma ChosenFacts(prior: State, s: State, input: Input, evidence: seq<IdleObservation>) returns (decision: Decision)
    requires prior.pendingEffect.None? && LegalIntent(Some(prior), s, input)
    requires Honest(input) && OnlyControllerStarts(input) && Latest(evidence) == Merged(input.journal).idleObservations
    ensures s.lifecycle == ApplyDecision(Merged(input.journal), decision, input.nowMs)
    ensures s.pendingEffect.Some? && s.pendingEffect.value.effect == decision.effect
    ensures decision.effect.StartVm? ==> decision.effect.generation == input.journal.startCount + 1
    ensures decision.effect.BeginDrain? ==>
              evidence == [] || evidence[|evidence| - 1].generation != input.journal.startCount || !evidence[|evidence| - 1].complete
    ensures !decision.effect.BeginDrain? ==> decision.state != Draining
    ensures decision.effect.ResumeAdmission? ==>
              var added := NewEntries(prior.lifecycle, input);
              |added| == 1 && added[0].complete && added[0].generation == prior.lifecycle.startCount
  {
    decision := DecideLifecycle(input.(journal := Merged(input.journal)));
    DecisionFacts(prior.lifecycle, input, evidence, input.nowMs);
    if decision.effect.ResumeAdmission? {
      ResumeIsEvident(prior.lifecycle, input);
    }
  }

  lemma ChoiceKeepsHistory(log: seq<Step>, prior: State, s: State, input: Input, nowMs: int)
    requires HistoryInv(log, nowMs) && JournalOf(log) == Some(prior) && prior.pendingEffect.None?
    requires Honest(input) && OnlyControllerStarts(input) && LegalIntent(Some(prior), s, input) && nowMs <= input.nowMs
    ensures HistoryInv(log + [Save(IntentSave, s)], input.nowMs)
  {
    var step := Save(IntentSave, s);
    BaseKeepsEvidence(log, step, prior, input, nowMs);
    var decision := ChosenFacts(prior, s, input, Recorded(log + [step]));
    ChoiceKeeps(log, prior, s, decision, input);
  }

  lemma ChoiceKeeps(log: seq<Step>, prior: State, s: State, decision: Decision, input: Input)
    requires var step := Save(IntentSave, s);
             && Recorded(log + [step]) == Recorded(log) + NewEntries(prior.lifecycle, input)
             && EvidenceInv(Recorded(log + [step]), Resumes(log), Merged(input.journal), input.nowMs)
             && s.lifecycle == ApplyDecision(Merged(input.journal), decision, input.nowMs)
             && s.pendingEffect.Some? && s.pendingEffect.value.effect == decision.effect
             && (decision.effect.StartVm? ==> decision.effect.generation == input.journal.startCount + 1)
             && var evidence := Recorded(log + [step]);
             && (decision.effect.BeginDrain? ==>
                   evidence == [] || evidence[|evidence| - 1].generation != input.journal.startCount || !evidence[|evidence| - 1].complete)
             && (!decision.effect.BeginDrain? ==> decision.state != Draining)
             && input.journal.startCount == prior.lifecycle.startCount
             && (decision.effect.ResumeAdmission? ==>
                   var added := NewEntries(prior.lifecycle, input);
                   |added| == 1 && added[0].complete && added[0].generation == prior.lifecycle.startCount)
    ensures HistoryInv(log + [Save(IntentSave, s)], input.nowMs)
  {
    var step := Save(IntentSave, s);
    JournalOfSnoc(log, step);
    assert (log + [step])[..|log|] == log;
    var base, marks, evidence := Merged(input.journal), Resumes(log), Recorded(log + [step]);
    DecisionKeepsEvidence(evidence, marks, base, decision, input.nowMs);
    if decision.effect.ResumeAdmission? {
      assert evidence[|evidence| - 1] == NewEntries(prior.lifecycle, input)[0];
      NewMarkClosed(evidence, marks, s.lifecycle, input.nowMs);
    }
  }

  lemma IntentKeepsHistory(log: seq<Step>, s: State, input: Input, nowMs: int)
    requires HistoryInv(log, nowMs) && Honest(input) && OnlyControllerStarts(input)
    requires LegalIntent(JournalOf(log), s, input) && nowMs <= input.nowMs
    ensures HistoryInv(log + [Save(IntentSave, s)], input.nowMs)
  {
    var prior := JournalOf(log);
    if prior.None? {
      var step := Save(IntentSave, s);
      JournalOfSnoc(log, step);
      assert (log + [step])[..|log|] == log;
      ResumeNeedsState(input, s);
      HistorySnoc(log, step);
    } else if prior.value.pendingEffect.Some? {
      RetireKeepsHistory(log, prior.value, s, input, nowMs);
    } else {
      ChoiceKeepsHistory(log, prior.value, s, input, nowMs);
    }
  }

  lemma ResumeNeedsState(input: Input, s: State)
    requires Honest(input) && LegalIntent(None, s, input)
    ensures s.pendingEffect.Some? && !s.pendingEffect.value.effect.ResumeAdmission?
    ensures s.lifecycle.idleObservations == []
  {
    if DecideLifecycle(input).effect.ResumeAdmission? {
      ResumeNeedsDrainedGuest(input);
    }
  }

  lemma DecisionFacts(saved: Journal, input: Input, evidence: seq<IdleObservation>, nowMs: int)
    requires SeenFrom(saved, input) && OnlyControllerStarts(input) && ParsedConfig(input.config)
    requires Latest(evidence) == Merged(input.journal).idleObservations
    ensures var base := Merged(input.journal);
            var decision := DecideLifecycle(input.(journal := base));
            && (decision.effect.StartVm? ==> decision.effect.generation == base.startCount + 1)
            && (decision.effect.BeginDrain? ==>
                  evidence == [] || evidence[|evidence| - 1].generation != base.startCount || !evidence[|evidence| - 1].complete)
            && (!decision.effect.NoEffect? && !decision.effect.BeginDrain? ==> decision.state != Draining)
  {
    var decided := input.(journal := Merged(input.journal));
    var decision := DecideLifecycle(decided);
    LatestLast(evidence);
    LatestLast(input.journal.idleObservations);
    DecisionStates(decided);
    if decision.effect.BeginDrain? {
      DrainInterrupts(saved, input);
    } else if decision.effect.StartVm? {
      StartWithinBudget(decided);
    }
  }

  lemma NewMarkClosed(evidence: seq<IdleObservation>, marks: seq<Mark>, journal: Journal, nowMs: int)
    requires EvidenceInv(evidence, marks, journal, nowMs) && evidence != [] && journal.state != Draining
    requires evidence[|evidence| - 1].generation == journal.startCount && evidence[|evidence| - 1].complete
    ensures EvidenceInv(evidence, marks + [Mark(|evidence|, journal.startCount)], journal, nowMs)
  {
    assert Closed(Mark(|evidence|, journal.startCount), evidence, journal);
  }

  // A refused start hands its generation back; no evidence of that generation exists.
  lemma HandBackKeepsEvidence(evidence: seq<IdleObservation>, marks: seq<Mark>, saved: Journal, next: Journal, nowMs: int)
    requires EvidenceInv(evidence, marks, saved, nowMs)
    requires forall e :: e in saved.idleObservations ==> e.generation < saved.startCount
    requires next.startCount == saved.startCount - 1 && next.state != Draining
    requires next.idleObservations == saved.idleObservations
    ensures EvidenceInv(evidence, marks, next, nowMs)
  {
    LatestLast(evidence);
    forall e | e in evidence ensures e.generation < saved.startCount {
      assert saved.idleObservations[|saved.idleObservations| - 1] in saved.idleObservations;
      assert evidence[|evidence| - 1].generation < saved.startCount;
      var i :| 0 <= i < |evidence| && evidence[i] == e;
      assert evidence[i].generation <= evidence[|evidence| - 1].generation;
    }
    forall m | m in marks ensures Closed(m, evidence, next) {
      assert Closed(m, evidence, saved);
    }
  }

  lemma WaitingKeepsHistory(first: bool, log: seq<Step>, prior: State, s: State, input: Input, env: Environment, nowMs: int)
    requires HistoryInv(log, nowMs) && AllGood(log) && Honest(input) && nowMs <= input.nowMs
    requires JournalOf(log) == Some(prior) && prior.pendingEffect.Some?
    requires LegalWaiting(first, log, prior, s, input, env)
    ensures HistoryInv(log + [Save(WaitingSave, s)], input.nowMs)
  {
    GoodJournal(log);
    var step := Save(WaitingSave, s);
    JournalOfSnoc(log, step);
    var evidence, marks, saved := Recorded(log), Resumes(log), prior.lifecycle;
    if input.provider.vmStatus == VmStopped && SeenFrom(saved, input) {
      BaseIsGood(Some(prior), input);
    }
    assert s.lifecycle.idleObservations == saved.idleObservations;
    HistorySnoc(log, step);
    MoveKeepsEvidence(evidence, marks, saved, saved, nowMs, input.nowMs);
    if prior.pendingEffect.value.effect.StartVm? {
      HandBackKeepsEvidence(evidence, marks, saved, s.lifecycle, input.nowMs);
    } else {
      MoveKeepsEvidence(evidence, marks, saved, s.lifecycle, nowMs, input.nowMs);
    }
  }

  predicate Quiet(kind: SaveKind) { kind != IntentSave && kind != WaitingSave && kind != ObservedSave }

  // The other writes neither read evidence nor enter draining.
  lemma QuietSave(first: bool, log: seq<Step>, kind: SaveKind, s: State, input: Input, env: Environment)
    requires LegalSave(first, log, kind, s, input, env) && Quiet(kind)
    ensures var prior := JournalOf(log);
            && prior.Some? && s.lifecycle.idleObservations == prior.value.lifecycle.idleObservations
            && s.lifecycle.startCount == prior.value.lifecycle.startCount
            && (s.lifecycle.state == Draining ==> prior.value.lifecycle.state == Draining)
  {
    if kind == AmbiguousSave && LateFailure(log, s) {
      assert JournalOf(log) == Some(log[|log| - 1].state);
    }
  }

  lemma ObservedKeepsHistory(log: seq<Step>, s: State, input: Input, nowMs: int)
    requires HistoryInv(log, nowMs) && nowMs <= input.nowMs && !HasPending(JournalOf(log)) && SeenAfter(JournalOf(log), input)
    requires s.lifecycle == BaseJournal(JournalOf(log), input)
    ensures HistoryInv(log + [Save(ObservedSave, s)], input.nowMs)
  {
    var prior, step := JournalOf(log), Save(ObservedSave, s);
    JournalOfSnoc(log, step);
    HistorySnoc(log, step);
    if prior.Some? {
      BaseKeepsEvidence(log, step, prior.value, input, nowMs);
    }
  }

  lemma EmitKeepsHistory(log: seq<Step>, step: Step, nowMs: int, laterMs: int)
    requires HistoryInv(log, nowMs) && step.Emit? && nowMs <= laterMs
    ensures HistoryInv(log + [step], laterMs)
  {
    JournalOfSnoc(log, step);
    HistorySnoc(log, step);
    var prior := JournalOf(log);
    if prior.Some? {
      MoveKeepsEvidence(Recorded(log), Resumes(log), prior.value.lifecycle, prior.value.lifecycle, nowMs, laterMs);
    }
  }

  lemma QuietKeepsHistory(first: bool, log: seq<Step>, kind: SaveKind, s: State, input: Input, env: Environment, nowMs: int)
    requires HistoryInv(log, nowMs) && nowMs <= input.nowMs && LegalSave(first, log, kind, s, input, env) && Quiet(kind)
    ensures HistoryInv(log + [Save(kind, s)], input.nowMs)
  {
    JournalOfSnoc(log, Save(kind, s));
    QuietSave(first, log, kind, s, input, env);
    HistorySnoc(log, Save(kind, s));
    MoveKeepsEvidence(Recorded(log), Resumes(log), JournalOf(log).value.lifecycle, s.lifecycle, nowMs, input.nowMs);
  }

  lemma StepKeepsHistory(first: bool, log: seq<Step>, step: Step, input: Input, env: Environment, nowMs: int)
    requires HistoryInv(log, nowMs) && AllGood(log) && Honest(input) && OnlyControllerStarts(input)
    requires Legal(first, log, step, input, env) && nowMs <= input.nowMs
    ensures HistoryInv(log + [step], input.nowMs)
  {
    match step
    case Emit(_, _) => EmitKeepsHistory(log, step, nowMs, input.nowMs);
    case Save(IntentSave, s) => IntentKeepsHistory(log, s, input, nowMs);
    case Save(WaitingSave, s) => WaitingKeepsHistory(first, log, JournalOf(log).value, s, input, env, nowMs);
    case Save(ObservedSave, s) => ObservedKeepsHistory(log, s, input, nowMs);
    case Save(kind, s) => QuietKeepsHistory(first, log, kind, s, input, env, nowMs);
  }

  // ---- the theorem about graceful stops ----

  lemma NoResumeBetween(all: seq<IdleObservation>, mark: Mark, journal: Journal, first: nat, last: nat, nowMs: int)
    requires Ordered(all) && Closed(mark, all, journal) && journal.state == Draining && first < last < |all|
    requires forall e :: e in all ==> e.observedAtMs <= nowMs && e.generation <= journal.startCount
    requires all[first].generation == all[last].generation == journal.startCount
    requires forall k :: first <= k <= last && all[k].generation == journal.startCount ==> all[k].complete
    requires forall k :: last < k < |all| && all[k].generation == journal.startCount ==> all[k].observedAtMs > nowMs
    ensures !(first < mark.at <= last)
  {
    assert forall k :: 0 <= k < |all| ==> all[k] in all;
    assert forall k :: first <= k < |all| ==> all[k].generation == journal.startCount && all[k].complete;
  }

  lemma StopFacts(prior: Option<State>, s: State, input: Input)
    requires LegalIntent(prior, s, input) && Honest(input)
    requires s.pendingEffect.Some? && s.pendingEffect.value.effect == StopVm(false)
    ensures prior.Some? && SeenFrom(prior.value.lifecycle, input)
    ensures var base := Merged(input.journal);
            && base.state == Draining && s.lifecycle.startCount == base.startCount
            && s.lifecycle.idleObservations == base.idleObservations
            && GraceOf(Evidence(base.idleObservations, base.startCount, input.nowMs),
                       input.queue.observedAtMs, input.nowMs, input.config.timing)
  {
    GracefulStopEarned(input.(journal := BaseJournal(prior, input)));
  }

  // A journaled graceful stop rests on two recorded idle observations of the running generation, at least
  // the grace apart, with neither a recorded interruption nor a resume between them.
  lemma GracefulStopRests(log: seq<Step>, s: State, input: Input, nowMs: int) returns (first: nat, last: nat)
    requires HistoryInv(log, nowMs) && Honest(input) && nowMs <= input.nowMs
    requires LegalIntent(JournalOf(log), s, input)
    requires s.pendingEffect.Some? && s.pendingEffect.value.effect == StopVm(false)
    ensures var all := Recorded(log + [Save(IntentSave, s)]);
            var generation := s.lifecycle.startCount;
            && first < last < |all|
            && all[first].generation == all[last].generation == generation
            && all[last].observedAtMs == input.queue.observedAtMs
            && all[last].observedAtMs - all[first].observedAtMs >= input.config.timing.idleGraceMs
            && (forall k :: first <= k <= last ==> all[k].complete && all[k].generation == generation)
    ensures forall m :: m in Resumes(log + [Save(IntentSave, s)]) ==> !(first < m.at <= last)
  {
    var step := Save(IntentSave, s);
    var prior := JournalOf(log);
    StopFacts(prior, s, input);
    BaseKeepsEvidence(log, step, prior.value, input, nowMs);
    assert (log + [step])[..|log|] == log;
    first, last := GraceInHistory(Recorded(log + [step]), Resumes(log), Merged(input.journal), input);
  }

  lemma GraceInHistory(all: seq<IdleObservation>, marks: seq<Mark>, base: Journal, input: Input) returns (first: nat, last: nat)
    requires EvidenceInv(all, marks, base, input.nowMs) && base.state == Draining
    requires GraceOf(Evidence(base.idleObservations, base.startCount, input.nowMs),
                     input.queue.observedAtMs, input.nowMs, input.config.timing)
    ensures first < last < |all| && all[last].observedAtMs == input.queue.observedAtMs
    ensures all[first].generation == all[last].generation == base.startCount
    ensures all[last].observedAtMs - all[first].observedAtMs >= input.config.timing.idleGraceMs
    ensures forall k :: first <= k <= last ==> all[k].complete && all[k].generation == base.startCount
    ensures forall m :: m in marks ==> !(first < m.at <= last)
  {
    WindowGrace(all, base, input);
    first, last := GraceWitness(all, base.startCount, input.queue.observedAtMs, input.nowMs, input.config.timing);
    OneGeneration(all, first, last, base.startCount);
    forall m | m in marks ensures !(first < m.at <= last) {
      NoResumeBetween(all, m, base, first, last, input.nowMs);
    }
  }

  // The grace of the window is grace of the whole evidence.
  lemma WindowGrace(all: seq<IdleObservation>, base: Journal, input: Input)
    requires Ordered(all) && base.idleObservations == Latest(all)
    requires GraceOf(Evidence(base.idleObservations, base.startCount, input.nowMs),
                     input.queue.observedAtMs, input.nowMs, input.config.timing)
    ensures GraceOf(Evidence(all, base.startCount, input.nowMs), input.queue.observedAtMs, input.nowMs, input.config.timing)
  {
    var window := base.idleObservations;
    var dropped := all[..|all| - |window|];
    assert all == dropped + window;
    WindowGrantsNoMore(dropped, window, base.startCount, input.queue.observedAtMs, input.nowMs, input.config.timing);
  }

  lemma OneGeneration(all: seq<IdleObservation>, first: nat, last: nat, generation: int)
    requires Ordered(all) && first < last < |all| && all[first].generation == all[last].generation == generation
    ensures forall k :: first <= k <= last ==> all[k].generation == generation
  {
  }
}
