# Verified model of the Cirujano runner controller and fleet tools

This project models the parts of the repository whose mistakes would cost money or strand work, and proves what they
are for:

- **The runner controller** drives one cloud VM through create, start, register, drain, stop and delete. It keeps a
  durable write-ahead journal and may crash at any of seven named boundaries. A tick is a list of durable steps, a crash
  is a prefix of it, and a run is any sequence of observations, ticks, crashes and stops emitted outside the tick. The
  journal file is a class whose methods overwrite it step by step. Each tick is proved to perform exactly the surviving
  prefix of its plan, and every plan is proved to be a path of a small transition relation. The invariants of the journal,
  of provider calls, start generations, idle evidence, runtime and VM count are proved over that relation, and then over
  every run. Each order of the decision table, each provider call and each answer to one is given exactly when a flat
  condition on what is observed, journaled and permitted holds.
- **The accounting** turns readings into runtime, disk time, egress, idle evidence and cost, each with its own definition,
  and the cost of every write of a run covers what was recorded.
- **Routing** assesses whether a permit can still serve a job. It is proved to agree with the decision table, and stranded
  runs are selected, cancelled and re-run with every run and job accounted for once.
- **Gated `runs-on` text** is rendered, parsed and split. Whatever text is accepted selects the self-hosted labels only
  under the switch, the owner and the workflow clause, however the text is read.
- **Telemetry** snapshots are checked for coverage and merged into one record a job.
- **The bounded archive reader** accepts exactly what a writer of the archive format produces around one `quality.json`,
  with every byte accounted for and the checksum pinned by its own constants.

Times are integer milliseconds and money is exact reals with an explicit rounding function. Reasons, refusals and statuses
are constructors of datatypes instead of message texts.

## Assumptions

- One act of a run: time moves on; permits, configurations and identities are parsed; a guest grant is numbered from 1
  (`packages/runner/guest/arm-grant.sh:20` arms no other) and is not read from a VM that is absent or stopped; a capacity
  refusal does not consist of one empty quota name. The adapter produces no such refusal
  (packages/runner/src/adapters/nebius.ts:76-108, `Capacity.ProducedReadable`), and `Invariants.WaitingReadableExactly`
  says that a journal would be unreadable exactly after one.
- Provider calls reach the provider at most once when reconciliation never asks for a retry, which `reconcileEffect` never
  does (packages/cli/src/runner-service.ts:768-865).
- The graceful-stop theorem holds in runs where only the controller starts the VM, and the runtime theorem in runs under
  one permit where the VM is seen up only under a journaled grant.
- What a gated selection means to GitHub is stated for any comparison of strings and any properties of the run;
  `GateMeaning.Evaluated` is the reading of clauses it rests on.
- At most one VM: complete observations are accurate when they are made, only this controller creates, and a create that
  has not landed by its deadline never lands. A readback of a pending create is accurate: resolved means its VM exists
  (`AccurateReplies`; packages/cli/src/runner-service.ts:859-864), refused that its operation failed (835-843). An
  accepted create is resolved by a later readback only, never by the call itself (`CreatesUnresolved`;
  packages/cli/src/runner-service.ts:710-718 and 1258-1262), and reconciliation never asks for a retry (`NeverRetries`).

## What the code does not do

- When appending the final event of a resolved effect fails, the failure handler writes the effect back as ambiguous over
  the durable result, so a settled effect is pending again. This happens if and only if the append fails
  (`LostEvents.TickSettledExactly`, `LostEvents.RunSettledExactly`). `LostReceipts.RegistrationComesBack` is a run in which
  it happens to a registration, the one effect the fleet's executor resolves at once
  (packages/cli/src/runner-service.ts:730-744), and `LostReceipts.ResolvedCreateComesBack` one in which it happens to a
  create, which the controller's interface also allows. Every run theorem covers such runs.
- The window of idle observations holds a hundred entries, so a grace longer than ninety-nine readings is never earned and
  a drained VM is never stopped for idleness (`IdleRunner.LongGraceNeverEarned`; `IdleRunner.WindowSpansGrace` says when a
  row of readings spans the grace). No parsed configuration is refused for it (packages/runner/src/config.ts:85-112): at
  the least poll interval of two seconds the grace of five minutes that packages/cli/src/fleet-service.ts:61-68 sets is out
  of reach.
- A drain ordered after the guest's own grant has ended is journaled and dropped again within the same tick, without a
  call. This happens if and only if that grant, or the journaled deadline, is over (`Calling.OrderCalledExactly`,
  `Calling.LateDrainExactly`).
- A deletion that is reconciled during a capacity wait ends the wait, so the next create may follow at once
  (`Refusals.HeldUntilRetry`, `Beliefs.JournalIsTold`).
- An archive whose descriptor carries no signature is refused when its checksum reads like one
  (`ArchiveFormat.LooksSignedRefused`).
- A coverage gap ends early at a snapshot whose window is empty, although the instants after it are uncovered as well
  (`Coverage.EmptyWindowCutsGap` is such a store; `Coverage.StoreGapMaximalExactly` says for which stores it happens).

## Model

| member | source | states |
|---|---|---|
| `Theorems.EveryWriteReadsBack` | packages/runner/src/controller.ts:290-300 | In every run, each state ever made durable is read back unchanged and keeps the state invariants |
| `Theorems.EffectEmittedAtMostOnce` | packages/runner/src/controller.ts:89-125 | In every run without requested retries, a provider call carries the last journaled effect, directly follows its durable emitting record, and no other call was made for that intent |
| `Theorems.DryRunOnlyObserves` | packages/runner/src/controller.ts:89-101 | A dry run calls no provider and writes at most one observation without an effect |
| `Theorems.UnrefusedGenerations` | packages/runner/src/controller.ts:719-741 | In every run the unrefused start generations are exactly 1 to startCount, and startCount is start intents minus refused starts |
| `Theorems.StartsNeverExceedPermit` | packages/runner/src/lifecycle.ts:231-243 | Under one permit no journal of a run counts more starts than it allows |
| `Theorems.SpendingRises` | packages/runner/src/controller.ts:521-532 | Journaled runtime and cost never decrease from one write of a run to any later one |
| `Theorems.LedgerRises` | packages/cli/src/runner-service.ts:109-152 | Retained disk time and network bytes never decrease, and never fall below zero, over a run |
| `Theorems.RuntimeWithinPermit` | packages/runner/src/lifecycle.ts:403-416 | Journaled runtime never exceeds the permit by more than the largest single overrun past a grant deadline, over any number of generations |
| `Theorems.GracefulStopsRest` | packages/runner/src/lifecycle.ts:254-271 | Every journaled graceful stop of a run rests on two recorded idle observations of the running generation at least the grace apart, with no interruption and no resume between them |
| `SingleVm.AtMostOneVm` | packages/runner/src/lifecycle.ts:136-158 | In every reachable state at most one owned VM exists, and none while a create may still land, with the provider moving between any two durable steps and stops journaled outside the tick |
| `SingleVm.StepKeepsCreates` | packages/runner/src/controller.ts:479-519 | Every durable step keeps a possibly landing create journaled as the pending emitted effect, with no VM beside it |
| `SingleVm.NewCreateIsFromAbsence` | packages/runner/src/lifecycle.ts:136-158 | A create is only ever journaled on a complete observation that shows no VM, with nothing pending |
| `Liveness.StuckEffectAbandoned` | packages/runner/src/controller.ts:102-121 | Past the grant deadline with the VM seen running, one tick drops a stuck register, drain, resume or emitted start and does nothing else, whatever guest and queue report |
| `Liveness.EmergencyStopFollows` | packages/runner/src/lifecycle.ts:85-100 | With nothing pending past the deadline, the tick journals an emergency stop of an exactly owned VM that is neither stopped nor absent, and hands it to the provider, also on incomplete observations |
| `Liveness.StuckEffectEndsInEmergencyStop` | packages/runner/src/controller.ts:640-665 | Both together: two live ticks end a stuck effect in an emergency stop |
| `Liveness.StuckRunEndsInEmergencyStop` | packages/runner/src/controller.ts:83-125 | In every run two live ticks after the deadline append the abandonment, the intent of an emergency stop and its provider call to the log |
| `LostEvents.OutcomeSettledExactly` | packages/runner/src/controller.ts:485-518 | After a resolved call the last write has no pending effect if and only if the final event is not lost |
| `LostEvents.TickSettledExactly` | packages/runner/src/controller.ts:83-220 | The same of any tick that calls the provider, over any journal; a lost event leaves the effect pending and ambiguous |
| `LostEvents.RunSettledExactly` | packages/runner/src/controller.ts:83-220 | The same of the last tick of a run |
| `LostReceipts.RegistrationComesBack` | packages/runner/src/controller.ts:500-517 | A run that creates, starts and registers without a failed call, and whose registration had durably resolved and is pending and ambiguous again |
| `LostReceipts.ResolvedCreateComesBack` | packages/runner/src/controller.ts:500-517 | A run of which the same is true for a create |
| `Authority.EveryCallIsAuthorized` | packages/runner/src/controller.ts:624-652 | Every provider call of any tick is under the saved, current permit that holds its operation, unexpired unless it is a recovery stop or delete, and in time unless it is a stop, a delete or a start of a stopped VM |
| `Authority.OnlyTheProviderFails` | packages/runner/src/controller.ts:534-564 | Over a readable journal and an observation that follows it, a tick throws only when a provider call or the reconciliation failed |
| `Invariants.StepIsGood` | packages/runner/src/controller.ts:534-564 | Every legal durable step writes a readable state, in the inductive form: a pending start owns its generation and every recorded idle observation is older |
| `JournalReading.ReadExactly` | packages/runner/src/controller.ts:290-438 | A journal is read if and only if its fields are sound, one by one and against each other, and then as it was written, with the newest hundred observations and readbacks |
| `Invariants.WaitingReadableExactly` | packages/runner/src/controller.ts:719-749 | The state left by a capacity refusal is readable if and only if the refusal is not one empty quota name |
| `Invariants.EmptyQuotaUnreadable` | packages/runner/src/controller.ts:352-360 | A refusal naming one empty quota makes the journal unreadable |
| `Invariants.DecisionFits` | packages/runner/src/lifecycle.ts:80-281 | Every effect the decision table chooses is allowed by a permit of this controller and fits the journal it was chosen on |
| `Journaling.TickIsLegal` | packages/runner/src/controller.ts:83-220 | Every prefix of every tick is a path of the transition relation the invariants are proved over |
| `Journaling.DetailEmptyExactly` | packages/runner/src/lifecycle.ts:292-311 | The journaled wait detail is empty if and only if the refusal names one empty quota |
| `Capacity.ProducedReadable` | packages/runner/src/adapters/nebius.ts:76-108 | No capacity refusal the adapter produces names an empty quota, so its wait reads back |
| `Emissions.StepKeepsEmissions` | packages/runner/src/controller.ts:479-519 | No step makes a second provider call for one journaled intent |
| `Generations.StartCountMoves` | packages/runner/src/controller.ts:459-471 | A write raises the start count exactly when it journals a start, to the next generation within the permit, and lowers it exactly when it hands back a refused start |
| `Generations.StepKeepsGenerations` | packages/runner/src/controller.ts:719-741 | Handing a refused generation back keeps the generations consecutive |
| `History.StepKeepsHistory` | packages/runner/src/controller.ts:521-532 | The bounded window is the newest part of all evidence ever recorded, which stays in time and generation order, and every resume stays closed off |
| `History.GracefulStopRests` | packages/runner/src/lifecycle.ts:433-448 | A graceful stop decided on the bounded window has its two witnesses in the whole history |
| `Runtime.ObservationCharges` | packages/cli/src/runner-service.ts:116-131 | A reading charges runtime within the bound and only to the generation the ledger counts |
| `Runtime.StepKeepsRuntime` | packages/runner/src/controller.ts:459-471 | A journaled start leaves its grant within the runtime the permit has left |
| `Runs.StepKeepsSound` | packages/runner/src/controller.ts:83-220 | One legal step of a run keeps readability, generations and the time order of the window |
| `Runs.ActIsPath` | packages/runner/src/controller.ts:83-220 | The durable steps of an act over what it observed are a legal path, wherever it is cut off |
| `ControllerJournal.JournalFile.Tick` | packages/runner/src/controller.ts:83-220 | A tick over the journal file performs exactly the steps of its plan that come before the boundary it dies at, and all of them with the plan's status when it lives |
| `ControllerJournal.JournalFile.Reconcile` | packages/runner/src/controller.ts:125-190 | Reconciliation of an emitted effect performs its plan, dying or not |
| `ControllerJournal.JournalFile.EmitPending` | packages/runner/src/controller.ts:485-519 | The emitting record is written before the provider call and the answer after it |
| `ControllerJournal.JournalFile.RecordAndExecute` | packages/runner/src/controller.ts:222-247 | An intent is durable before its effect is executed |
| `ControllerJournal.JournalFile.WaitForCapacity` | packages/runner/src/controller.ts:719-749 | A refused effect leaves a capacity wait, or nothing when the refused start is not the journaled one |
| `ControllerJournal.JournalFile.Abandon` | packages/runner/src/controller.ts:681-695 | The file then holds neither intent nor pending effect, keeps all the rest, and reads back if the abandoned state did |
| `ControllerJournal.AbandonedIsForgotten` | packages/runner/src/controller.ts:681-695 | The tick after an abandonment decides afresh, and calls the provider only for what it then journals itself |
| `ControllerJournal.JournalFile.Block` | packages/runner/src/controller.ts:751-771 | The file then holds the same effect at the same stage under the same authorization, marked blocked like its intent, and reads back if the blocked state did |
| `ControllerJournal.BlockedStaysBlocked` | packages/runner/src/controller.ts:102-121 | While its authorization stays in question a blocked effect is written again unchanged and never called, unless it is retired |
| `ControllerJournal.JournalFile.constructor` | packages/runner/src/controller.ts:281-288 | A journal that was never written reads as absent |
| `ControllerJournal.DeathIsCut` | packages/runner/src/controller.ts:68-76 | Dying at a named boundary is one of the cuts the run theorems range over |
| `Lifecycle.CreateOnlyWhenAbsent` | packages/runner/src/lifecycle.ts:136-158 | A VM is created only on a complete observation of none, for a queued job, within permit, runtime and expiry |
| `Lifecycle.StartWithinBudget` | packages/runner/src/lifecycle.ts:231-243 | A start takes the next generation and a deadline within lifetime, runtime and permit, and long enough for a job |
| `Lifecycle.GracefulStopEarned` | packages/runner/src/lifecycle.ts:425-448 | A graceful stop needs a drained guest of the journaled generation that has earned its grace |
| `Lifecycle.ResumeNeedsDrainedGuest` | packages/runner/src/lifecycle.ts:80-281 | Work is resumed only on a drained guest of the journaled generation |
| `Lifecycle.DrainNeedsWorkingGuest` | packages/runner/src/lifecycle.ts:254-278 | A drain is ordered only while the guest still admits work |
| `Lifecycle.WindowGrantsNoMore` | packages/runner/src/lifecycle.ts:433-448 | Keeping only the newest observations never grants a grace the whole history would refuse |
| `Lifecycle.GraceWitness` | packages/runner/src/lifecycle.ts:433-448 | Grace exhibits two observations far enough apart with no interruption of the generation between them |
| `Orders.DrainExactly` | packages/runner/src/lifecycle.ts:254-277 | A drain is ordered if and only if an idle guest that still admits work, or whose drain has not ended, has no job queued and the permit allows it; it falls back at the end of the generation or after ten minutes, whichever is first |
| `Orders.RegisterExactly` | packages/runner/src/lifecycle.ts:245-252 | A registration is ordered if and only if a ready idle guest has a job queued that ends, with its margin, by the grant, the journaled deadline and the permit; the cutoff is the last such instant |
| `Orders.ResumeExactly` | packages/runner/src/lifecycle.ts:203-209 | Admission is resumed if and only if a drained guest gets work that still fits |
| `Orders.StopExactly` | packages/runner/src/lifecycle.ts:254-271 | A graceful stop is ordered if and only if a drained guest with nothing active and no work it could resume has two idle observations at least the grace apart, with only idle ones of its generation since |
| `Orders.GraceExactly` | packages/runner/src/lifecycle.ts:433-448 | The grace is satisfied if and only if there are two such observations |
| `Orders.EmergencyExactly` | packages/runner/src/lifecycle.ts:85-100 | An emergency stop is ordered if and only if the one owned VM is up past its lifetime with nothing outstanding and the permit allows recovery stops |
| `Orders.DeleteExactly` | packages/runner/src/lifecycle.ts:185-229 | A deletion is ordered if and only if the VM was stopped at the end of its lifetime, or is stopped with no work queued and was stopped for that or is kept for a capacity wait |
| `Orders.BudgetExactly` | packages/runner/src/lifecycle.ts:403-416 | A start may last until the last instant that lifetime, remaining runtime and permit all allow, and has no budget if that leaves no whole job |
| `Orders.StartExactly` | packages/runner/src/lifecycle.ts:231-243 | A start is ordered if and only if work is queued for a settled stopped VM, no wait holds and there is budget |
| `Orders.CreateExactly` | packages/runner/src/lifecycle.ts:136-158 | A create is ordered if and only if work is queued, no VM exists, no refused create is waited out and there is budget |
| `Refusals.WaitExactly` | packages/runner/src/lifecycle.ts:292-311 | A refusal holds for the longer of the poll interval and two, four, eight and then sixteen minutes for the first, second, third and every later refusal of its episode |
| `Refusals.EpisodeCounted` | packages/runner/src/lifecycle.ts:292-311 | An episode goes on if and only if the next refusal comes at most sixteen minutes after the last retry time, and the wait counts its refusals |
| `Refusals.RefusedNotRepeated` | packages/runner/src/controller.ts:719-749 | In every run a refused effect is neither journaled nor called again before its wait is over, unless a deletion is reconciled first |
| `Refusals.HeldUntilRetry` | packages/runner/src/controller.ts:719-749 | With one poll interval throughout, that is until the retry time the refusal wrote |
| `Refusals.HeldTwoMinutes` | packages/runner/src/controller.ts:719-749 | Whatever the poll intervals, two calls of a refused create or start are at least two minutes apart |
| `Beliefs.JournalIsTold` | packages/runner/src/controller.ts:125-190 | In every run the journal's state, the times of its generation and the kind of its wait are what the row of journaled, refused, confirmed and directly stopped effects tells |
| `Calling.FoundExactly` | packages/runner/src/controller.ts:102-124 | A tick that finds an effect lets it go, holds it blocked or calls it, each exactly when the saved authorization, the current permit, the time and the VM say so |
| `Calling.AnswerExactly` | packages/runner/src/controller.ts:125-190 | The answer about an emitted effect starts a wait, replaces a start that never came up by a deletion, calls again, settles or stays pending, each exactly when |
| `Calling.ReadbackKept` | packages/runner/src/controller.ts:125-190 | What is read back is kept as the newest of a hundred readbacks, unless the effect is called again |
| `Calling.ReturnedExactly` | packages/runner/src/controller.ts:485-518 | A call that returned settles its effect or leaves it pending with the operation it named, and changes no state, counter, time or wait |
| `Calling.FailedExactly` | packages/runner/src/controller.ts:485-518 | A failed call leaves its effect pending and ambiguous; a refused create or start waits |
| `Calling.CalledAgain` | packages/runner/src/controller.ts:566-576 | An effect to be called again is as it was before its call |
| `Calling.OrderCalledExactly` | packages/runner/src/controller.ts:196-247 | A fresh order is journaled and called within one tick, but for a drain that comes too late, which is journaled and dropped |
| `Calling.LateDrainExactly` | packages/runner/src/controller.ts:645-652 | A drain comes too late if and only if the guest's grant or the journaled deadline is over |
| `Calling.WaitingReported` | packages/runner/src/controller.ts:196-214 | A tick without an order makes one observation durable, and reports waiting if and only if nothing but the wait keeps the VM from being created or started |
| `Calling.GoingBackThrows` | packages/runner/src/controller.ts:521-532 | Nothing is written or called over the journal of another controller or, with nothing pending, over an observation behind the journal |
| `IdleRunner.RunDrains` | packages/runner/src/controller.ts:191-247 | In every run one live tick drains an idle ready guest without work: the order is journaled, marked and handed over |
| `IdleRunner.RunStops` | packages/runner/src/controller.ts:191-247 | In every run a live tick on a drained guest stops it once an idle observation of its window is as old as the grace |
| `IdleRunner.IdleReadingKept` | packages/cli/src/runner-service.ts:142-150 | Until then every live tick records its idle reading and orders nothing |
| `IdleRunner.WindowSpansGrace` | packages/runner/src/lifecycle.ts:433-448 | A row of regular idle readings earns the grace if and only if the ninety-nine gaps the window holds add up to it |
| `IdleRunner.LongGraceNeverEarned` | packages/runner/src/controller.ts:521-532 | A grace longer than that is never earned, however long the guest has been idle |
| `Accounting.AdvanceObservedLifecycle` | packages/cli/src/runner-service.ts:109-152 | The field-by-field accounting computes the observed journal and ledger |
| `Accounting.AdvanceOnlyGrows` | packages/cli/src/runner-service.ts:109-152 | An observation always passes the merge's regression checks, and runtime, cost, disk time and network bytes never decrease, also across generations |
| `Accounting.RuntimeCharge` | packages/cli/src/runner-service.ts:116-131 | A runtime increase is the generation's baseline plus the time since its start, charged to the running generation |
| `Metering.DiskTimeExact` | packages/cli/src/runner-service.ts:111-115 | Over any row of readings disk time is exactly the time the VM was seen to be there |
| `Metering.RuntimeExact` | packages/cli/src/runner-service.ts:116-131 | Runtime covers the time since the running generation started on top of what was spent before it, and is never more than that or what was journaled |
| `Metering.RuntimeBetween` | packages/cli/src/runner-service.ts:129-131 | Two readings of one running generation differ in runtime by exactly the time between them |
| `Metering.EgressExact` | packages/cli/src/runner-service.ts:132-135 | The bytes counted are the most any reading of the generation shows above its first counter, and never fewer than before |
| `Metering.EgressArmed` | packages/cli/src/runner-service.ts:116-123 | A new generation counts on from the bytes so far, from what the guest shows, or from zero for the first ever |
| `Metering.IdleExactly` | packages/cli/src/runner-service.ts:140-150 | A reading is recorded as idle, as the end of idleness or not at all, each exactly when |
| `Metering.NotIdleEndsEvidence` | packages/cli/src/runner-service.ts:140-150 | After a reading that is not idle no evidence of idleness is left |
| `Spending.ReadingCovers` | packages/cli/src/runner-service.ts:136-139 | After a reading the cost is at least compute, disk and egress at their rates less half a micro-dollar, and at most that plus half a micro-dollar when it rose |
| `Spending.EveryCostCovers` | packages/cli/src/runner-service.ts:136-139 | Under fixed rates every cost a run journals covers the runtime journaled with it and the disk time and egress of one of its readings |
| `Spending.ProjectionIsWorth` | packages/runner/src/routing.ts:20-25 | The projected cost is what a lifetime of compute and disk and the egress limit are worth |
| `Spending.ProjectionCovers` | packages/runner/src/routing.ts:20-25 | A generation within the limits adds at most the projected cost, and all of it when it uses them up |
| `Routing.ServiceableExactlyWhenCreated` | packages/runner/src/routing.ts:42-69 | A runner is serviceable if and only if the decision table would create for a queued job on an absent VM and the permit can start and register |
| `Routing.ServiceableExactlyWhenStarted` | packages/runner/src/routing.ts:42-69 | The same of starting a stopped VM, for a permit that can also create and register |
| `Routing.PartialIdentity` | packages/runner/src/routing.ts:42-69 | With part of the identity known, serviceable means that the controller the permit names would create |
| `Routing.ServiceEndIsLast` | packages/runner/src/routing.ts:32-34 | The reported end is the last instant at which a queued job still gets its VM |
| `Routing.BudgetParity` | packages/runner/src/lifecycle.ts:403-416 | The start budget is available exactly under the limits the assessment checks |
| `Routing.PricedServiceable` | packages/runner/src/routing.ts:20-25 | Priced from any parsed configuration the two forms agree, and without an egress limit neither lets a start through |
| `Service.ReasonExactly` | packages/runner/src/routing.ts:54-69 | The reason given is the first that is true of the permit, and none is true if and only if it serves |
| `Service.EndExactly` | packages/runner/src/routing.ts:32-34 | The end named is the last instant at which a whole job and its margin still fit the permit |
| `Service.MayTakeExactly` | packages/runner/src/routing.ts:123-129 | Stranded runs are left alone exactly while a VM is up or unknown, an intent is outstanding or the tick ordered a creation, start or deletion |
| `Routing.Select` | packages/runner/src/routing.ts:76-96 | The loop over runs collects cancellable, waiting and stranded ids |
| `Routing.CancellableExactly` | packages/runner/src/routing.ts:76-96 | A run is cancellable if and only if stranded jobs are all its current attempt has left, and there is one |
| `Routing.CancellableInOrder` | packages/runner/src/routing.ts:76-96 | Cancellable runs are listed in the order of the runs |
| `Routing.WaitingExactly` | packages/runner/src/routing.ts:76-96 | A run waits if and only if it has stranded jobs and something else unfinished |
| `Routing.StrandedExactly` | packages/runner/src/routing.ts:76-96 | The list of stranded jobs holds exactly the waiting jobs with the label of the runs' current attempts |
| `Routing.CancellableHasJobs` | packages/runner/src/routing.ts:76-96 | A cancellable run lists at least one stranded job, only its own, and none of its jobs runs |
| `Routing.ReleaseCheck.ClaimCheck` | packages/runner/src/routing.ts:100-116 | A check is claimed if and only if the claims stay spaced: each for a new reason or ten minutes after the one before; only a claim is recorded |
| `Routing.ClaimsApart` | packages/runner/src/routing.ts:100-104 | Any two claims for one reason, with no other reason claimed between them, are at least ten minutes apart |
| `FleetHealth.CancelAndRerun` | packages/cli/src/fleet-health.ts:59-98 | The procedure's outcome, call by call, against GitHub's answers |
| `FleetHealth.StillActiveExactly` | packages/cli/src/fleet-health.ts:75-86 | What is still active is unknown if and only if a listing fails before one shows no cancelled run, and otherwise what the last listing shows, or nothing once one shows none |
| `FleetHealth.CancelledPlaces` | packages/cli/src/fleet-health.ts:65-72 | The cancelled runs are those whose call was accepted, in the order of the calls |
| `FleetHealth.AlreadyPlaces` | packages/cli/src/fleet-health.ts:65-72 | The same of the runs that had finished before |
| `FleetHealth.FailedPlaces` | packages/cli/src/fleet-health.ts:65-72 | The same of the failed calls, with their errors |
| `FleetHealth.RunsConserved` | packages/cli/src/fleet-health.ts:65-72 | The three lists of runs together hold exactly the cancellable runs |
| `FleetHealth.EachRunInOneList` | packages/cli/src/fleet-health.ts:65-72 | With distinct ids each cancellable run ends in exactly one of the three lists |
| `FleetHealth.JobsConserved` | packages/cli/src/fleet-health.ts:86-97 | Every stranded job of a cancelled, finished run ends in exactly one of re-run, failed and left |
| `FleetHealth.OneRerunPerFinishedRun` | packages/cli/src/fleet-health.ts:86-97 | At most one re-run is requested of a run, of its first stranded job, never of a run still active |
| `FleetHealth.CleanExactly` | packages/cli/src/fleet-health.ts:45-48 | An outcome is clean if and only if no cancel failed and every cancelled run was seen finished, had one stranded job, and that re-run was accepted |
| `FleetHealth.CleanReleaseReranEverything` | packages/cli/src/fleet-health.ts:45-98 | For the selected runs, a clean outcome re-ran the only stranded job of every run it cancelled |
| `Guards.SplitGuard` | packages/cli/src/fleet-routing.ts:75-97 | The loop over depth, start and index computes the conjuncts, and refuses what is unbalanced or has a top-level or |
| `Guards.LiteralMasked` | packages/cli/src/fleet-routing.ts:76-76 | Masking replaces exactly what the literal expression matches |
| `Guards.ConjunctsExactly` | packages/cli/src/fleet-routing.ts:75-97 | For every well-formed guard the split is the list of its top-level operands, and a top-level or is refused |
| `Guards.SplitPreservesMeaning` | packages/cli/src/fleet-routing.ts:75-97 | An accepted guard is true if and only if every piece of the split is |
| `Guards.ConjunctHolds` | packages/cli/src/fleet-routing.ts:68-70 | A clause named among the conjuncts is true whenever the guard is |
| `Guards.ReadAnd` | packages/cli/src/fleet-routing.ts:75-97 | Every reading of a text that begins with an operand and an and begins with them |
| `Guards.Reading` | packages/cli/src/fleet-routing.ts:75-97 | Every balanced text whose operator characters outside literals stand in pairs is the text of an expression |
| `GatedRunsOn.SelectsOnlyUnderGuard` | packages/cli/src/fleet-routing.ts:53-72 | However an accepted text is read, it yields the self-hosted labels only while switch, owner and workflow clause are true, and otherwise the hosted fallback |
| `GatedRunsOn.AcceptedHasReading` | packages/cli/src/fleet-routing.ts:53-72 | Every accepted text whose operator characters outside literals stand in pairs has a reading |
| `GatedRunsOn.EnrolledHasReading` | packages/cli/src/fleet-routing.ts:40-46 | What an enrollment renders has a reading, which selects the labels only under the guard |
| `GatedRunsOn.AcceptedReading` | packages/cli/src/fleet-routing.ts:53-72 | The value of any reading, in terms of the switch, the guard and the labels |
| `GuardAcceptance.AcceptedExactly` | packages/cli/src/fleet-routing.ts:53-72 | A text is accepted if and only if it is the rendered one with any guard that names both clauses and holds no delimiter and no second tail, and it is always read as the same selection |
| `GuardAcceptance.StricterAccepted` | packages/cli/src/fleet-routing.ts:48-52 | Every guard that requires the owner and the workflow clause and whatever else, in any order, is accepted, unless it holds a delimiter or the opening of a tail |
| `GateMeaning.RenderedMeans` | packages/cli/src/fleet-routing.ts:40-46 | What is rendered yields the self-hosted labels if and only if the switch is on and the owner runs the enrolled workflow, from a pull request only one of their own from the repository itself, and otherwise `ubuntu-latest` |
| `GatedRunsOn.RenderReadsBack` | packages/cli/src/fleet-routing.ts:40-72 | A rendered selection is read back with the same labels and switch exactly when its runner label holds no quote, `}}` or `${{` |
| `GatedRunsOn.RenderReadsBackFromYaml` | packages/cli/src/fleet-routing.ts:108-122 | The same through a single-quoted or double-quoted YAML scalar |
| `GatedRunsOn.EnrolledReadsBack` | packages/cli/src/fleet-registry.ts:165-170 | Whatever a gate of an accepted enrollment renders is read back, plain and through both quoted scalars |
| `Labels.EnrolledIsLinux` | packages/cli/src/telemetry.ts:13-17 | A label is accepted for an enrollment if and only if it is for Linux and either the shared label or the enrollment's own |
| `Labels.JsonReadsBack` | packages/cli/src/fleet-routing.ts:45-45 | The JSON text of a label reads back as the label |
| `Labels.VerbatimPart` | packages/cli/src/fleet-routing.ts:45-45 | The JSON text of a label holds a quote or brace sequence exactly when the label does |
| `Yaml.SingleQuotedExactly` | packages/cli/src/fleet-routing.ts:109-114 | A single-quoted scalar reads as a string if and only if its body is that string with its quotes doubled |
| `Yaml.DoubleQuotedExactly` | packages/cli/src/fleet-routing.ts:115-119 | A double-quoted scalar reads as a string if and only if its body is that string escaped |
| `Yaml.PlainExactly` | packages/cli/src/fleet-routing.ts:120-121 | A plain scalar reads as it stands, unless a comment would begin inside it |
| `Coverage.CheckCoverage` | packages/cli/src/telemetry-store.ts:34-60 | A store is accepted if and only if its windows reach the start and cover every instant up to the end, and otherwise the gap named is the earliest, and whole if and only if no empty snapshot cuts it |
| `Coverage.Sweep` | packages/cli/src/telemetry-store.ts:47-60 | The sorted sweep finds complete coverage or the first gap |
| `Coverage.GapMaximalExactly` | packages/cli/src/telemetry-store.ts:51-58 | The gap named is the whole uncovered stretch if and only if no empty window stands inside the first uncovered stretch |
| `Coverage.StoreGapMaximalExactly` | packages/cli/src/telemetry-store.ts:34-60 | The same in terms of the stored snapshots |
| `Coverage.NoEmptyWindowNoCut` | packages/cli/src/telemetry-store.ts:109-110 | Without empty windows every gap named is whole |
| `Coverage.EmptyWindowCutsGap` | packages/cli/src/telemetry-store.ts:51-58 | A store whose named gap is not the whole uncovered stretch |
| `Coverage.FirstGapUnique` | packages/cli/src/telemetry-store.ts:51-60 | A store has at most one first gap, and none when it is covered |
| `Coverage.ThroughExactly` | packages/cli/src/telemetry-store.ts:47-47 | The report ends at the earliest instant by which every snapshot was collected or the measurement window is over |
| `Coverage.WindowsOfSnapshots` | packages/cli/src/telemetry-store.ts:48-49 | The windows that count are those of the snapshots that were not filled in later |
| `Telemetry.Aggregate` | packages/cli/src/telemetry.ts:380-425 | The nested loops fold the snapshots in collection order, or stop at a conflict |
| `Telemetry.ListedOnce` | packages/cli/src/telemetry.ts:395-426 | The report lists every merged job exactly once, under its own key, in the order the keys were first seen |
| `Telemetry.ListedAsSeen` | packages/cli/src/telemetry.ts:394-426 | It lists them in the order in which the snapshots, by collection time, first show a job that counts |
| `Telemetry.MergeAbsorbs` | packages/cli/src/telemetry.ts:336-350 | Merging an observation that was already merged changes nothing |
| `Telemetry.MergeKeepsIdentity` | packages/cli/src/telemetry.ts:404-424 | An accepted observation changes missing times or a retry's creation time, never anything known or the first visibility |
| `Telemetry.MergeExactly` | packages/cli/src/telemetry.ts:336-350 | Two observations are merged if and only if they are equal, the later completes the times the earlier lacked, they differ in visibility only or in a retry's creation time only, and into what they say together |
| `Telemetry.SnapshotExactly` | packages/cli/src/telemetry.ts:400-425 | A snapshot is taken in if and only if every job of it is compatible with what is known, and then each is absorbed and nothing else touched |
| `Telemetry.StoreExactly` | packages/cli/src/telemetry.ts:394-425 | A store is accepted if and only if each snapshot, in collection order, fits what the ones before it gave |
| `Telemetry.LateTimesCompleted` | packages/cli/src/telemetry.ts:409-412 | A job whose times arrive later is listed once, completed, under its first visibility, in whatever order the two snapshots are listed |
| `Telemetry.StatusExactly` | packages/cli/src/telemetry.ts:763-769 | A job is measured, not run or incomplete exactly when its conclusion and times say so |
| `Telemetry.CostsExactly` | packages/cli/src/telemetry.ts:776-783 | What a job cost and would have cost, to half a micro-dollar, and when it is free or unknown |
| `Telemetry.LeftOutExactly` | packages/cli/src/telemetry.ts:401-402 | A job is left out if and only if its last known time is before the start or it was created after the end |
| `Telemetry.RepeatAbsorbed` | packages/cli/src/telemetry.ts:395-424 | Listing a snapshot once more changes no merged job and causes no conflict |
| `Telemetry.OrderDoesNotMatter` | packages/cli/src/telemetry.ts:394-395 | Snapshots collected at different instants merge alike in any order |
| `Telemetry.RowsAddUp` | packages/cli/src/telemetry.ts:426-441 | The rows of the report add up exactly to its total, for any count or sum of minutes |
| `Telemetry.ReportAddsUp` | packages/cli/src/telemetry.ts:426-476 | The same for the counts and minutes the report prints |
| `Telemetry.KindSums` | packages/cli/src/telemetry.ts:427-476 | The minutes and counts printed for a kind of runner are those of its jobs |
| `ArtifactZip.ReadQualityZip` | packages/cli/src/optimization/artifact-zip.ts:7-27 | The reader returns a content if and only if the archive has a layout and its content checks, with every read in bounds |
| `ArtifactZip.PartsTile` | packages/cli/src/optimization/artifact-zip.ts:7-23 | An accepted archive is tiled by its parts with no byte left over |
| `ArtifactZip.StoredIsCopied` | packages/cli/src/optimization/artifact-zip.ts:24-26 | The content of an accepted stored archive is its data as it stands, with the recorded length and checksum |
| `ArtifactZip.LayoutUnique` | packages/cli/src/optimization/artifact-zip.ts:9-12 | An archive has at most one layout |
| `ArtifactZip.OutputUnique` | packages/cli/src/optimization/artifact-zip.ts:7-27 | An archive is read in one way only |
| `ArtifactZip.NamesAgree` | packages/cli/src/optimization/artifact-zip.ts:15-20 | Both names are the twelve bytes of the file name; a byte order mark is refused |
| `ArtifactZip.StoredReadsBack` | packages/cli/src/optimization/artifact-zip.test-helper.ts:3-3 | Reading a stored archive gives back its body, exactly when the body is within the limit |
| `Checksums.Crc32` | packages/cli/src/optimization/artifact-zip.ts:5-5 | The two loops compute the checksum |
| `Checksums.LowIsBinary` | packages/cli/src/optimization/artifact-zip.ts:5-5 | A byte enters the register in binary: doubling it shifts it |
| `Checksums.LowOfZero` | packages/cli/src/optimization/artifact-zip.ts:5-5 | The byte zero enters as zero |
| `Checksums.SingleByteDetected` | packages/cli/src/optimization/artifact-zip.ts:5-5 | The checksum tells any two contents apart that differ in one byte |
| `ArtifactZip.DamageIsRefused` | packages/cli/src/optimization/artifact-zip.ts:26-26 | A content that differs from the recorded one in one byte is refused |
| `Checksums.ResidueIsConstant` | packages/cli/src/optimization/artifact-zip.ts:5-5 | Running the register over any content and its checksum leaves 0xdebb20e3 |
| `Checksums.CheckValue` | packages/cli/src/optimization/artifact-zip.ts:5-5 | The checksum of the nine digits is 0xcbf43926 |
| `Checksums.FieldHoldsOne` | packages/cli/src/optimization/artifact-zip.ts:26-26 | A checksum field holds one checksum only |
| `ArtifactZip.GenuineAccepted` | packages/cli/src/optimization/artifact-zip.ts:7-27 | One archive, byte for byte, that is read |
| `ArchiveFormat.FitsExactly` | packages/cli/src/optimization/artifact-zip.ts:8-22 | An archive has a layout if and only if a writer of the format produces it from acceptable choices, and the layout is where the writer put the parts |
| `ArchiveFormat.ReadsExactly` | packages/cli/src/optimization/artifact-zip.ts:7-27 | A content is read if and only if the archive was written of it: its data stand for the content, with its size and checksum |
| `ArchiveFormat.LooksSignedRefused` | packages/cli/src/optimization/artifact-zip.ts:21-21 | An archive whose unsigned descriptor has a checksum that reads like the signature is refused |
| `ArtifactZip.CheckExtra` | packages/cli/src/optimization/artifact-zip.ts:16-16 | The walk accepts exactly the extra areas that fields fill completely, none of them ZIP64 |
| `ArtifactZip.FindEnd` | packages/cli/src/optimization/artifact-zip.ts:9-9 | The backward scan finds the last end record within reach |

## Left out

- The journal file layer (packages/runner/src/journal.ts): a write is atomic and the lock exclusive; the event log is
  modelled only by whether its final append is lost.
- GitHub, Nebius, SSH and subprocess adapters: their answers are arbitrary inputs under the stated assumptions. Of the
  commands outside the tick only the journal write of an emitted stop is modelled.
- Strict-key JSON decoding, unknown enumeration values and non-finite numbers: records are taken as parsed.
- Adoption of a VM: the controller never decides while an intent is outstanding, so the branch is kept but unreachable.
- Merging of runner assignments, recovery commands and the enrollment part of the telemetry report.
- Floating-point rounding of money: exact reals, rounded where the code rounds.
- Telemetry.MergeAbsorbs: takes the table of hosted prices as a parameter, and labels as already sorted.
- Guards.ConjunctsExactly: covers literals, calls, comparisons, parentheses and the two operators, not index brackets.
- ArtifactZip.ReadQualityZip: takes inflation as an oracle, and the file name's decoding as the two byte sequences that
  decode to it.
- FleetHealth.CancelAndRerun: the wait between listings is not modelled.
- Redaction, advisory inference, proposals, Markdown rendering and argument parsing.
