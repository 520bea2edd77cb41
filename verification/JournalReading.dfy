/**
 Which journals are read (packages/runner/src/controller.ts, parseControllerState and assertStateInvariants), field by
 field, and what is read of them.
 */
module JournalReading {
  import opened Contracts
  import opened Controller

  predicate NamesController(id: Identity) {
    "" !in {id.configHash, id.candidateDigest, id.projectId, id.controllerId, id.resourcePrefix} && 0 < id.repositoryId
  }

  // No counter is negative, a generation that started ends later, and a wait has a reason and a count.
  predicate SoundCounters(j: Journal) {
    && 0 <= j.startCount && 0 <= j.cumulativeRuntimeMs && 0.0 <= j.cumulativeCostUsd
    && (match (j.grantStartedAtMs, j.grantDeadlineMs)
        case (Some(startedMs), Some(endMs)) => startedMs < endMs
        case (Some(_), None) => false
        case _ => true)
    && (match j.capacityWait
        case Some(wait) => wait.detail != "" && 0 < wait.refusals
        case None => true)
  }

  // Idle evidence is of some generation, and what is kept of it of none that has not been started.
  predicate SoundEvidence(j: Journal) {
    && (forall k :: 0 <= k < |j.idleObservations| ==> 0 < j.idleObservations[k].generation)
    && (forall k :: 0 <= k < |j.idleObservations| && |j.idleObservations| - 100 <= k ==>
          j.idleObservations[k].generation <= j.startCount)
  }

  // The operation a permit must hold for an effect.
  predicate Needs(effect: Effect, operation: Operation) {
    || (operation == OpCreate && (effect.CreateVm? || effect.AdoptVm?)) || (operation == OpStart && effect.StartVm?)
    || (operation == OpRegister && (effect.RegisterRunner? || effect.BeginDrain? || effect.ResumeAdmission?))
    || (operation == OpStop && effect.StopVm?) || (operation == OpDelete && effect.DeleteVm?)
  }

  // An effect that ends at an instant of its own.
  predicate EndsAt(effect: Effect, t: int) {
    match effect
    case CreateVm(_, _, deadlineMs) => t == deadlineMs
    case AdoptVm(_, deadlineMs) => t == deadlineMs
    case StartVm(_, deadlineMs) => t == deadlineMs
    case RegisterRunner(cutoffMs) => t == cutoffMs
    case BeginDrain(fallbackMs) => t == fallbackMs
    case _ => false
  }

  predicate Numbered(effect: Effect) {
    match effect
    case CreateVm(generation, reserved, _) => 0 < generation && 0 < reserved
    case AdoptVm(generation, _) => 0 < generation
    case StartVm(generation, _) => 0 < generation
    case DeleteVm(generation) => 0 < generation
    case _ => true
  }

  // The pending effect stands on this controller's permit, with the effect's operation and its own end.
  ghost predicate SoundAuthority(p: PendingEffect, identity: Identity) {
    && p.authorization.identity == identity && p.authorization.permitId != "" && Needs(p.effect, p.authorization.operation)
    && (forall t :: EndsAt(p.effect, t) ==> p.authorization.effectDeadlineMs == Some(t))
  }

  // A create or a start is outstanding exactly while it is pending, with its generation, status and deadline.
  predicate SoundIntent(pending: Option<PendingEffect>, j: Journal) {
    if pending.None? then j.outstandingIntent.None?
    else
      match pending.value.effect
      case CreateVm(generation, reserved, deadlineMs) =>
        j.outstandingIntent == Some(Intent(CreateIntent, generation, pending.value.status, deadlineMs)) && reserved == j.startCount + 1
      case StartVm(generation, deadlineMs) =>
        j.outstandingIntent == Some(Intent(StartIntent, generation, pending.value.status, deadlineMs)) && generation <= j.startCount
      case _ => j.outstandingIntent.None?
  }

  ghost predicate Readable(s: State) {
    && NamesController(s.identity) && SoundCounters(s.lifecycle) && SoundEvidence(s.lifecycle)
    && SoundIntent(s.pendingEffect, s.lifecycle)
    && (s.pendingEffect.Some? ==> Numbered(s.pendingEffect.value.effect) && SoundAuthority(s.pendingEffect.value, s.identity))
  }

  lemma CountersExactly(j: Journal)
    ensures ParsesJournal(j)
            <==> SoundCounters(j) && forall k :: 0 <= k < |j.idleObservations| ==> 0 < j.idleObservations[k].generation
  {
    if ParsesJournal(j) {
      forall k | 0 <= k < |j.idleObservations| ensures 0 < j.idleObservations[k].generation {
        assert j.idleObservations[k] in j.idleObservations;
      }
    }
  }

  lemma EvidenceExactly(j: Journal)
    ensures (forall e :: e in Latest(j.idleObservations) ==> e.generation <= j.startCount)
            <==> (forall k :: 0 <= k < |j.idleObservations| && |j.idleObservations| - 100 <= k ==>
                    j.idleObservations[k].generation <= j.startCount)
  {
    var all, kept := j.idleObservations, Latest(j.idleObservations);
    var dropped := |all| - |kept|;
    assert forall k :: dropped <= k < |all| ==> kept[k - dropped] == all[k];
    if forall e :: e in kept ==> e.generation <= j.startCount {
      forall k | 0 <= k < |all| && |all| - 100 <= k ensures all[k].generation <= j.startCount {
        assert kept[k - dropped] in kept;
      }
    }
  }

  lemma PendingExactly(p: PendingEffect, s: State)
    requires s.pendingEffect == Some(p) && NamesController(s.identity)
    ensures ParsesPending(p) && PendingMatchesIntent(p, s.lifecycle) && PendingAuthorized(p, s.identity)
            <==> SoundIntent(s.pendingEffect, s.lifecycle) && Numbered(p.effect) && SoundAuthority(p, s.identity)
  {
    var ends := ExplicitDeadline(p.effect);
    assert forall t :: EndsAt(p.effect, t) <==> ends == Some(t);
    assert ends.Some? ==> EndsAt(p.effect, ends.value);
  }

  // A journal is read if and only if its fields are sound, and then as it was written, with the newest hundred
  // observations and readbacks.
  lemma ReadExactly(s: State)
    ensures Parse(s).Some? <==> Readable(s)
    ensures Parse(s).Some? ==>
              Parse(s).value == s.(lifecycle := s.lifecycle.(idleObservations := Latest(s.lifecycle.idleObservations)),
                                   readbacks := Latest(s.readbacks))
  {
    CountersExactly(s.lifecycle);
    EvidenceExactly(s.lifecycle);
    if s.pendingEffect.Some? && NamesController(s.identity) {
      PendingExactly(s.pendingEffect.value, s);
    }
  }
}
