/**
 Two runs that lose a receipt. In the one, the VM is created, started and registered, and the event that follows the
 registration's durable result is lost: registration is the one effect whose call the fleet's executor resolves at once
 (packages/cli/src/runner-service.ts, executeEffect), and it relies on that receipt being kept. In the other the same
 happens to a create, which the controller's interface also allows to be resolved at once.
 */
module LostReceipts {
  import opened Contracts
  import opened Lifecycle
  import opened Controller
  import opened Accounting
  import opened Journaling
  import opened Runs
  import opened LostEvents

  // ---- what is observed, tick by tick ----

  function Id(): Identity { Identity("h", "d", 1, "p", "c", "r") }

  function Setup(): Config { Config(Timing(2000, 1, 1000, 1, 10_000, 1), false) }

  function Allowance(): Permit {
    Permit(Id(), "id", {OpCreate, OpStart, OpRegister}, 1, 100_000, 1, 50_000, 1.0, true)
  }

  // One queued job, and nothing costs anything.
  function LookAt(t: int, provider: Provider, guest: Guest): Look {
    Look(t, Setup(), Id(), Some(Allowance()), provider, Queue(true, 1, Some(false), t), guest,
         None, Finite(0.0), Rates(0.0, 0.0, 0.0), 0.0)
  }

  function InputAt(t: int, provider: Provider, guest: Guest, journal: Journal): Input {
    Input(t, Setup(), Id(), Some(Allowance()), provider, Queue(true, 1, Some(false), t), guest, journal, Finite(0.0))
  }

  function NoVm(): Provider { Provider(true, VmAbsent, OwnAbsent, 0, false) }

  function Vm(status: VmStatus): Provider { Provider(true, status, Owned, 1, false) }

  function NoGuest(): Guest { Guest(true, Offline, None, None, None, None, false, false, false) }

  function ReadyGuest(): Guest { NoGuest().(status := GuestReady, grant := Some(Grant(1, 3000, 13_000))) }

  // ---- the journal, tick by tick ----

  function Authorize(operation: Operation, deadlineMs: int): Authorization {
    Authorization(Id(), "id", 100_000, operation, true, Some(deadlineMs))
  }

  function Emitted(effect: Effect, t: int, operation: Operation, deadlineMs: int): PendingEffect {
    PendingEffect(EffectId("c", t, effect), effect, t, Pending, EmittingStage, Authorize(operation, deadlineMs), None)
  }

  function Creating(): State {
    State(Id(), Journal(Starting, 0, 0, 0.0, Some(Intent(CreateIntent, 1, Pending, 11_000)), [], None, None, None),
          Some(Emitted(CreateVm(1, 1, 11_000), 1000, OpCreate, 11_000)), [])
  }

  function Created(): State { State(Id(), Journal(Stopped, 0, 0, 0.0, None, [], None, None, None), None, [None]) }

  function Started(intent: Option<Intent>): Journal { Journal(Starting, 1, 0, 0.0, intent, [], Some(13_000), Some(3000), None) }

  function Launching(): State {
    State(Id(), Started(Some(Intent(StartIntent, 1, Pending, 13_000))), Some(Emitted(StartVm(1, 13_000), 3000, OpStart, 13_000)), [None])
  }

  function Launched(): State { State(Id(), Started(None), None, [None, None]) }

  // ---- observing it ----

  lemma NothingCosts(runtimeMs: int, ledger: Ledger, look: Look)
    requires look.rates == Rates(0.0, 0.0, 0.0)
    ensures CostOf(runtimeMs, ledger, look) == 0.0
  {
    assert EPSILON * 1_000_000.0 + 0.5 < 1.0;
  }

  lemma Seen(s: State, ledger: Option<Ledger>, t: int, provider: Provider, guest: Guest) returns (input: Input, counted: Ledger)
    requires Parse(s) == Some(s) && ledger.Some?
    requires s.lifecycle.cumulativeCostUsd == 0.0 && s.lifecycle.idleObservations == [] && guest.status != Drained
    ensures Observe(Some(s), ledger, LookAt(t, provider, guest)) == Some((input, counted))
    ensures input == InputAt(t, provider, guest, s.lifecycle.(cumulativeRuntimeMs := input.journal.cumulativeRuntimeMs))
    ensures input.journal.cumulativeRuntimeMs >= s.lifecycle.cumulativeRuntimeMs
    ensures !ProviderUp(provider) ==> input.journal == s.lifecycle
  {
    var look := LookAt(t, provider, guest);
    var (after, ledgerAfter) := Advance(s.lifecycle, ledger.value, look);
    NothingCosts(after.cumulativeRuntimeMs, ledgerAfter, look);
    assert look.identity == Id();
    input, counted := Observe(Some(s), ledger, look).value.0, Observe(Some(s), ledger, look).value.1;
  }

  lemma SeenAtFirst() returns (counted: Ledger)
    ensures Observe(None, None, LookAt(1000, NoVm(), NoGuest())) == Some((InputAt(1000, NoVm(), NoGuest(), FreshJournal(NoVm())), counted))
  {
    var look := LookAt(1000, NoVm(), NoGuest());
    var ledger := ReadLedger(None, None, look).value;
    var (after, ledgerAfter) := Advance(FreshJournal(NoVm()), ledger, look);
    NothingCosts(after.cumulativeRuntimeMs, ledgerAfter, look);
    counted := ledgerAfter;
  }

  // ---- the ticks ----

  function Accepted(): ExecReply { ExecReturned(None, false, None, false) }

  // Resolved at once, and then the event after the durable result fails.
  function LosingReply(): ExecReply { ExecReturned(None, true, None, true) }

  function Hands(reply: ExecReply): Environment { Environment(ReconcileThrew, reply) }

  function Settles(): Environment { Environment(Reconciled(true, false, false, None, None), ExecThrew) }

  lemma EmitsAfterRecord(s: State, input: Input, env: Environment)
    requires s.pendingEffect.Some? && env.execute == Accepted() && InvariantsHold(s)
    requires AuthorizationProblem(s.pendingEffect.value, input).None? && !IsStale(s.pendingEffect.value, input)
    ensures InvariantsHold(EmittingState(s))
    ensures ExecutePlan(s, input, env).steps
            == [Save(EmittingSave, EmittingState(s)), Emit(s.pendingEffect.value.effect, env.execute), Save(ResultSave, EmittingState(s))]
  {
    var emitting := EmittingState(s);
    assert ResultState(emitting, env.execute) == emitting;
    assert OutcomePlan(emitting, env.execute, input).steps == [Save(ResultSave, emitting)];
  }

  lemma CreateDecided(input: Input)
    requires input == InputAt(1000, NoVm(), NoGuest(), FreshJournal(NoVm()))
    ensures DecideLifecycle(input) == Decision(Starting, CreateVm(1, 1, 11_000), CreateNeeded)
  {
    assert StartBudget(input) == Available(10_000);
  }

  lemma CreateTick(input: Input)
    requires input == InputAt(1000, NoVm(), NoGuest(), FreshJournal(NoVm()))
    ensures var steps := TickPlan(None, input, Hands(Accepted()), false).steps;
            |steps| == 4 && steps[3] == Save(ResultSave, Creating())
  {
    CreateDecided(input);
    var s := RecordedState(DecideLifecycle(input), input.journal, [], input);
    assert EmittingState(s) == Creating() && InvariantsHold(s);
    EmitsAfterRecord(s, input, Hands(Accepted()));
  }

  lemma CreatedTick(input: Input)
    requires Parse(Creating()) == Some(Creating()) && input == InputAt(2000, Vm(VmStopped), NoGuest(), Creating().lifecycle)
    ensures TickPlan(Some(Creating()), input, Settles(), false).steps == [Save(ReconciledSave, Created())]
  {
    assert ReconciledState(Creating(), None) == Created();
    assert AuthorizationProblem(Creating().pendingEffect.value, input).None? && !IsStale(Creating().pendingEffect.value, input);
  }

  lemma StartDecided(input: Input)
    requires input == InputAt(3000, Vm(VmStopped), NoGuest(), Created().lifecycle)
    ensures DecideLifecycle(input) == Decision(Starting, StartVm(1, 13_000), StartNeeded)
  {
    assert StartBudget(input) == Available(10_000);
  }

  lemma StartTick(input: Input)
    requires Parse(Created()) == Some(Created()) && input == InputAt(3000, Vm(VmStopped), NoGuest(), Created().lifecycle)
    ensures var steps := TickPlan(Some(Created()), input, Hands(Accepted()), false).steps;
            |steps| == 4 && steps[3] == Save(ResultSave, Launching())
  {
    StartDecided(input);
    var s := RecordedState(DecideLifecycle(input), Merged(input.journal), [None], input);
    assert Merged(input.journal) == input.journal;
    assert EmittingState(s) == Launching() && InvariantsHold(s);
    EmitsAfterRecord(s, input, Hands(Accepted()));
  }

  lemma LaunchedTick(input: Input)
    requires Parse(Launching()) == Some(Launching())
    requires input == InputAt(4000, Vm(VmRunning), ReadyGuest(), input.journal)
    ensures TickPlan(Some(Launching()), input, Settles(), false).steps == [Save(ReconciledSave, Launched())]
  {
    assert ReconciledState(Launching(), None) == Launched();
    assert AuthorizationProblem(Launching().pendingEffect.value, input).None? && !IsStale(Launching().pendingEffect.value, input);
  }

  lemma RegisterDecided(input: Input, runtimeMs: int)
    requires input == InputAt(5000, Vm(VmRunning), ReadyGuest(), Launched().lifecycle.(cumulativeRuntimeMs := runtimeMs))
    ensures DecideLifecycle(input) == Decision(Ready, RegisterRunner(12_998), JobFits)
  {
    assert EffectiveGrant(input) == Some(Grant(1, 3000, 13_000));
  }

  // The registration is journaled, emitted and resolved; the event is lost, and it is pending again.
  lemma RegisterTick(input: Input, runtimeMs: int)
    requires Parse(Launched()) == Some(Launched()) && runtimeMs >= 0
    requires input == InputAt(5000, Vm(VmRunning), ReadyGuest(), Launched().lifecycle.(cumulativeRuntimeMs := runtimeMs))
    ensures var steps := TickPlan(Some(Launched()), input, Hands(LosingReply()), false).steps; |steps| == 5 && RegistrationBack(steps)
  {
    RegisterDecided(input, runtimeMs);
    var s := RecordedState(DecideLifecycle(input), Merged(input.journal), [None, None], input);
    assert Merged(input.journal) == input.journal && InvariantsHold(s);
    assert AuthorizationProblem(s.pendingEffect.value, input).None? && !IsStale(s.pendingEffect.value, input);
    var env := Hands(LosingReply());
    ResultKeepsInvariants(EmittingState(s), env.execute);
    OutcomeSteps(EmittingState(s), env.execute, input);
  }

  lemma AllParse()
    ensures Parse(Creating()) == Some(Creating()) && Parse(Created()) == Some(Created())
    ensures Parse(Launching()) == Some(Launching()) && Parse(Launched()) == Some(Launched())
  {
  }

  // ---- the run ----

  lemma AllowedSnoc(acts: seq<Act>, act: Act)
    requires Allowed(acts) && Admissible(After(acts), act)
    ensures Allowed(acts + [act])
  {
    var longer := acts + [act];
    assert longer[..|acts|] == acts;
    assert forall k :: 0 <= k < |acts| ==> longer[..k] == acts[..k] && longer[k] == acts[k];
  }

  // An uncut live tick that may follow these acts, what it observes and the steps it performs.
  ghost predicate Next(acts: seq<Act>, act: Act, input: Input, counted: Ledger, steps: seq<Step>) {
    var w := After(acts);
    && Allowed(acts) && act.Tick? && !act.dryRun && w.clock < act.look.nowMs
    && Observe(JournalOf(w.log), w.ledger, act.look) == Some((input, counted)) && Honest(input) && ReadableRefusals(act.env)
    && steps == TickPlan(JournalOf(w.log), input, act.env, false).steps && |steps| <= act.cut
  }

  lemma OneMore(acts: seq<Act>, act: Act, input: Input, counted: Ledger, steps: seq<Step>)
    requires Next(acts, act, input, counted, steps)
    ensures Allowed(acts + [act])
    ensures After(acts + [act]) == World(After(acts).log + steps, Some(counted), act.look.nowMs)
  {
    AfterSnoc(acts, act);
    AllowedSnoc(acts, act);
  }

  function Act1(): Act { Act.Tick(LookAt(1000, NoVm(), NoGuest()), Hands(Accepted()), false, 5) }
  function Act2(): Act { Act.Tick(LookAt(2000, Vm(VmStopped), NoGuest()), Settles(), false, 5) }
  function Act3(): Act { Act.Tick(LookAt(3000, Vm(VmStopped), NoGuest()), Hands(Accepted()), false, 5) }
  function Act4(): Act { Act.Tick(LookAt(4000, Vm(VmRunning), ReadyGuest()), Settles(), false, 5) }
  function LosingCreate(): Act { Act.Tick(LookAt(1000, NoVm(), NoGuest()), Hands(LosingReply()), false, 5) }
  function Act5(): Act { Act.Tick(LookAt(5000, Vm(VmRunning), ReadyGuest()), Hands(LosingReply()), false, 5) }

  // What a stretch of the run leaves: an allowed run with this journal at this instant.
  ghost predicate Reached(acts: seq<Act>, s: State, t: int) {
    Allowed(acts) && JournalOf(After(acts).log) == Some(s) && After(acts).ledger.Some? && After(acts).clock == t
  }

  lemma ReachedNext(acts: seq<Act>, act: Act, input: Input, counted: Ledger, steps: seq<Step>, s: State)
    requires Next(acts, act, input, counted, steps)
    requires steps != [] && steps[|steps| - 1].Save? && steps[|steps| - 1].state == s
    ensures Reached(acts + [act], s, act.look.nowMs)
  {
    OneMore(acts, act, input, counted, steps);
    LastWrite(After(acts).log, steps);
  }

  lemma LastWrite(log: seq<Step>, steps: seq<Step>)
    requires steps != [] && steps[|steps| - 1].Save?
    ensures JournalOf(log + steps) == Some(steps[|steps| - 1].state)
  {
    assert (log + steps)[|log + steps| - 1] == steps[|steps| - 1];
  }

  lemma ReachedCreating()
    ensures Reached([Act1()], Creating(), 1000)
  {
    var counted := SeenAtFirst();
    var input := InputAt(1000, NoVm(), NoGuest(), FreshJournal(NoVm()));
    CreateTick(input);
    ReachedNext([], Act1(), input, counted, TickPlan(None, input, Hands(Accepted()), false).steps, Creating());
    assert [] + [Act1()] == [Act1()];
  }

  lemma ReachedCreated(acts: seq<Act>)
    requires Reached(acts, Creating(), 1000)
    ensures Reached(acts + [Act2()], Created(), 2000)
  {
    AllParse();
    var input, counted := Seen(Creating(), After(acts).ledger, 2000, Vm(VmStopped), NoGuest());
    CreatedTick(input);
    ReachedNext(acts, Act2(), input, counted, TickPlan(Some(Creating()), input, Settles(), false).steps, Created());
  }

  lemma ReachedLaunching(acts: seq<Act>)
    requires Reached(acts, Created(), 2000)
    ensures Reached(acts + [Act3()], Launching(), 3000)
  {
    AllParse();
    var input, counted := Seen(Created(), After(acts).ledger, 3000, Vm(VmStopped), NoGuest());
    StartTick(input);
    ReachedNext(acts, Act3(), input, counted, TickPlan(Some(Created()), input, Hands(Accepted()), false).steps, Launching());
  }

  lemma ReachedLaunched(acts: seq<Act>)
    requires Reached(acts, Launching(), 3000)
    ensures Reached(acts + [Act4()], Launched(), 4000)
  {
    AllParse();
    var input, counted := Seen(Launching(), After(acts).ledger, 4000, Vm(VmRunning), ReadyGuest());
    LaunchedTick(input);
    ReachedNext(acts, Act4(), input, counted, TickPlan(Some(Launching()), input, Settles(), false).steps, Launched());
  }

  // The log ends with a registration that was handed over, resolved, and written back as ambiguous.
  predicate RegistrationBack(log: seq<Step>) {
    var n := |log|;
    && n >= 3 && log[n - 3] == Emit(RegisterRunner(12_998), LosingReply())
    && log[n - 2].Save? && log[n - 2].kind == ResultSave && log[n - 2].state.pendingEffect.None?
    && log[n - 1].Save? && log[n - 1].state.pendingEffect.Some?
    && log[n - 1].state.pendingEffect.value.effect == RegisterRunner(12_998)
    && log[n - 1].state.pendingEffect.value.status == AmbiguousStatus
  }

  lemma BackAfter(log: seq<Step>, steps: seq<Step>)
    requires RegistrationBack(steps)
    ensures RegistrationBack(log + steps)
  {
    var n, m := |log|, |steps|;
    assert (log + steps)[n + m - 1] == steps[m - 1] && (log + steps)[n + m - 2] == steps[m - 2] && (log + steps)[n + m - 3] == steps[m - 3];
  }

  lemma Registered(acts: seq<Act>)
    requires Reached(acts, Launched(), 4000)
    ensures Allowed(acts + [Act5()]) && RegistrationBack(After(acts + [Act5()]).log)
  {
    AllParse();
    var input, counted := Seen(Launched(), After(acts).ledger, 5000, Vm(VmRunning), ReadyGuest());
    RegisterTick(input, input.journal.cumulativeRuntimeMs);
    var steps := TickPlan(Some(Launched()), input, Hands(LosingReply()), false).steps;
    OneMore(acts, Act5(), input, counted, steps);
    BackAfter(After(acts).log, steps);
  }

  // A run with no failed call whose registration had durably resolved and is pending and ambiguous again.
  lemma RegistrationComesBack() returns (acts: seq<Act>)
    ensures Allowed(acts) && RegistrationBack(After(acts).log)
  {
    ReachedCreating();
    ReachedCreated([Act1()]);
    ReachedLaunching([Act1()] + [Act2()]);
    ReachedLaunched([Act1()] + [Act2()] + [Act3()]);
    Registered([Act1()] + [Act2()] + [Act3()] + [Act4()]);
    acts := [Act1()] + [Act2()] + [Act3()] + [Act4()] + [Act5()];
  }

  lemma LosingCreateTick(input: Input)
    requires input == InputAt(1000, NoVm(), NoGuest(), FreshJournal(NoVm()))
    ensures var steps := TickPlan(None, input, Hands(LosingReply()), false).steps;
            && |steps| == 5 && steps[2] == Emit(CreateVm(1, 1, 11_000), LosingReply())
            && steps[3].Save? && steps[3].kind == ResultSave && steps[3].state.pendingEffect.None?
            && steps[4] == Save(AmbiguousSave, AmbiguousState(Creating()))
  {
    CreateDecided(input);
    var s := RecordedState(DecideLifecycle(input), input.journal, [], input);
    assert EmittingState(s) == Creating() && InvariantsHold(s);
    ResultKeepsInvariants(Creating(), LosingReply());
    OutcomeSteps(Creating(), LosingReply(), input);
  }

  // The same of a create: it had durably resolved, and the controller is left with it pending and ambiguous.
  lemma ResolvedCreateComesBack() returns (acts: seq<Act>)
    ensures Allowed(acts)
    ensures var log := After(acts).log;
            && |log| == 5 && log[2] == Emit(CreateVm(1, 1, 11_000), LosingReply())
            && log[3].Save? && log[3].kind == ResultSave && log[3].state.pendingEffect.None?
            && JournalOf(log) == Some(AmbiguousState(Creating()))
  {
    var counted := SeenAtFirst();
    var input, act := InputAt(1000, NoVm(), NoGuest(), FreshJournal(NoVm())), LosingCreate();
    LosingCreateTick(input);
    var steps := TickPlan(None, input, act.env, false).steps;
    OneMore([], act, input, counted, steps);
    acts := [] + [act];
    assert [] + steps == steps;
    LastWrite([], steps);
  }
}
