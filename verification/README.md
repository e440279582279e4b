# A verified model of the sshai control plane and guest

This project models the parts of the repository that decide something under concurrency, failure
or adversarial input, and proves what they promise. Every statement quantifies over all inputs,
all runs or all reachable states of the model; `dafny verify dfyconfig.toml` checks the project.

- **Profile materialization** (`Selectors`, `Documents`, `JsonText`, `Materialization`,
  `MaterializationLaws`, `MaterializationOrder`, `MaterializationNesting`, `MaterializationConvergence`,
  `MaterializationOutcomes`, `MaterializationEngine`). Selector edits are a get/put/delete lens on JSON trees, and a tree has one
  canonical text. The string test that guards ownership means exactly that two field paths are
  prefix-related. Accepted batches are independent, read back what they wrote, and are applied
  entirely or not at all. What is planned for an item, and what its target reads once a batch has gone
  through, is told from the item's own fields. Repeating one changes nothing about an installed item, or is refused,
  exactly as the item's target still reads as desired once the whole batch is through.
- **Auto-stop** (`AutoStop`, `AutoStopRuns`, `AutoStopLaws`, `AutoStopDelivery`). The generation-counted coordinator
  and the durable object around it, over every sequence of observations, expiries, suppressions,
  abandonments and refused dispatches; exactly when a message arms, keeps or stops, in terms of its
  policy, counters and times; and what a pending timer waits for.
- **Connection Intents** (`ConnectionIntents`, `IntentRuns`). Two critical sections with an unlocked
  gap between them, interleaved with Operation reservation, consumption and pruning.
- **Activity** (`Ancestry`, `Activity`, `ActivityLaws`, `ActivityObserver`, `Paths`). The memoised
  ancestry check, agent forests, and the argument that no user process goes unreported.
- **Deadline polling and Runtime replacement** (`DeadlinePoll`, `Replacement`, `ReplacementRuns`,
  `ReplacementLaws`).
  The generic poll loop and the replacement workflow whose data volume has one writer at a time.
- **Billing** (`Decimals`, `Ledger`, `Billing`, `BillingRuns`, `BillingIdentities`, `BillingTimes`,
  `BillingLaws`, `BillingStore`). Exact metering, the in-memory ledger, and exactly-once intervals and webhook
  grants over every sequence of transactions; the store is proved to stay on such a run.
- **Capsules** (`Ordering`, `Canonical`, `Capsule`, `CapsuleLayers`, `CapsuleLaws`,
  `CapsuleExtents`). Packing a tree
  into a layer and unpacking a layer, canonical requirement lists, and USTAR path limits.

`Text` holds the string functions the others share, `Times` what the database keeps of a time. Code that updates state in the source is a class
or a method with loops here, proved against a function or a predicate; the laws are lemmas about
those. Go's zero time is 0, times are integers (nanoseconds), and errors are values.

## Findings

Where a natural reading of the code or its comments is false, the project keeps the code's
behaviour, shows an input, and proves exactly when the expectation holds.

- Targets of one batch may be nested (`a.json` and `a.json/b.json`). They pass the ownership check
  and then cannot both be installed: an accepted batch of file targets goes through exactly when no
  written target lies strictly inside another written one (`BatchRunsIffUnnested`,
  `NestedTargetsPassOwnership`). With directories the order of the items decides: an outer directory
  that comes first must bring what the inner item observed, one that comes later must find that the
  inner item changed nothing (`OrderedBatchRunsExactly`, `PairedBatchRunsExactly`, `OrderDecides`). In
  any order and to any depth a batch goes through exactly when each item finds its target as observed
  in the files of the last directory around it, or those from before the batch, after the earlier
  items inside it alone (`NestedBatchRunsExactly`).
- A rollback cannot look up a target that lies below a file. Without write faults it always brings the
  files back, and it still reports failure exactly when some target lies below a file that is only
  rolled back later (`Rollback`, `OuterRestoredLastBlocksRollback`), never between unnested targets.
- A seeded target is skipped once it has been installed, whatever the user made of it since, unless
  the component's cache key changed: then the skip becomes an update and replaces the user's edit. An
  approved plan replaces or removes a local edit exactly by such a refresh or by pruning
  (`LocalEditsAreKeptExceptBy`, `SeededRefreshReplacesEdits`).
- An applied batch need not be a fixed point. Each installed item is recorded with the digest of what it
  desired. The next run takes it so, and then skips it, exactly when its target reads so after the whole
  batch; otherwise the item is refused, with every batch that contains it, because its observation seems
  to have changed. Observed afresh, such a managed item reads as drifted and blocks its batch, or cannot
  be observed at all, although nobody touched the file (`ReconcilingAgain`, `UnsettledReadsAsDrift`).
  Two things can come between. A desired digest is taken of the raw text, but a JSON field is observed as
  its canonical encoding, and only TOML selections are made canonical before they are compared: an item
  no later target lies around or inside survives exactly when it owns its whole target or its text is
  canonical (`AloneSettlesExactly`; the input is one settings field written with spaces,
  `SpacedSettingsAreRefusedNextTime`; the Claude adapter passes such text through unchanged for
  `$.permissions` and `$.hooks`). And a directory is observed with every file below it: one with a later
  item inside it survives exactly when that item changes nothing in the directory's files, and an item
  with a later directory around it exactly when that directory's files read there as desired
  (`OuterDirectorySettlesExactly`, `InnerItemSettlesExactly`; the input is a directory and a file inside
  it, `NestedDirectoryIsRefusedNextTime`).
- The overlap test must see normalised selectors: the empty selector means the whole file but looks
  disjoint from every field of it (`RawEmptySelectorMissesItsFields`).
- Suppressing a Runtime the coordinator has not yet coordinated is forgotten by its first
  observation; suppression holds exactly when the Runtime is the coordinated one
  (`SuppressionHoldsIffCoordinated`, `EarlySuppressionIsForgotten`).
- There is one suppression slot: suppressing another Runtime lifts the suppression of the coordinated
  one, whose next idle snapshot then arms a timer (`AnotherSuppressionLiftsTheFirst`). A suppressed
  Runtime stays so over exactly the messages that leave the slot alone, among them neither a second
  suppression nor a change of coordination (`SuppressionHoldsExactlyOver`, `SuppressionLasts`).
- The timer generation is a 64-bit counter that wraps around. Over a run the armed generations
  increase exactly when the last timer was armed below the counter's width, and a timer outranks all
  earlier ones exactly when the counter has room for the moves that arm it
  (`GenerationsIncreaseExactlyBelowTheTop`, `ArmingOutranksExactlyBelowTheTop`). A run past the top
  makes the first, long cancelled timer current again (`WrappingRevivesACancelledTimer`). What does
  not rest on the order, in particular the evidence of stops and the suppression of timers, holds
  for every run.
- A timer's message is used up when its handler ends in a terminal error, but the timer stays pending,
  and a pending timer keeps every later idle snapshot from arming another. A pending timer has its
  message on the way exactly when no delivery of it has failed, and past the counter's top none was dropped
  for reusing the key of an earlier one; once it has failed, the Runtime is not
  stopped for as long as it stays idle under its policy, and only for that long
  (`PendingTimerIsAwaitedExactlyUnlessFailed`, `StuckExactlyWhileIdle`, `StuckRuntimeIsNeverStopped`;
  the input is one stop whose dispatch fails for good, `FailedDispatchStrandsTheTimer`).
- The database keeps whole microseconds, and times are compared with stored ones unrounded. An identical
  webhook redelivery is a repeat, and an identical re-open of an interval a replay, exactly when its
  time is a whole microsecond; otherwise it conflicts with itself (`RedeliveryChangesNothing`,
  `ReopenReplaysExactlyOnMicroseconds`, `RetriedDeliveryConflicts`, `RetriedOpenConflicts`). Closing
  again returns the first debit with its times rounded (`ReCloseReplays`). A stop less than a
  microsecond after the stored start passes the first comparison and is refused by the table
  (`StopInTheStartsMicrosecondIsRefused`, `ImmediateStopIsRefused`). An interval is billed from the
  stored start, up to a microsecond early (`OpenedThenClosedDebits`).
- A new Connection Intent is returned with its expiry unrounded. Until the stored expiry all creates on
  its key agree (`OneIntentPerLifetime`); for every lifetime that does not end at a whole microsecond
  a second create before the returned expiry may get another Intent (`TwoIntentsInOneLifetime`).
- The activity snapshot's documentation says that escaped processes are also unknown activity. The
  code skips those held by a running selected container, and only those
  (`EscapedIsUnknownOutsideContainers`, `EscapedWithoutUnknown`).
- `time.Time.Sub` saturates, so a debit is rate times the time since the stored start exactly when the elapsed time fits
  63 bits of nanoseconds (`CloseDebitsRateTimesElapsed`); an interval open for 10^19 nanoseconds is
  closed for 2^63 - 1 of them (`SaturatedClose`).
- An interval named `polar:X` and the webhook event `X` contend for one transaction ID
  (`IDsCollideExactlyOnPolarNames`). In consistent books a close that is otherwise in order is refused
  exactly when its interval is named after a granted event (or its stop is stored no later than its
  start), and a grant that is otherwise in order
  exactly when a closed interval is named after its event; so the second of the two never happens
  (`CloseIsRefusedExactlyOnGrantedNames`, `GrantIsRefusedExactlyOnClosedNames`,
  `NeverClosedAndGranted`), and for every event name there are runs to either refusal
  (`GrantThenCloseIsRefused`, `CloseThenGrantIsRefused`). The store leaves it to its callers never to
  name an interval so.

## Model

| member | source | states |
|---|---|---|
| `Selectors.OverlapIsPrefixRelation` | libs/adapters/registry.go:50-52 | for selectors the syntax check accepts, the string overlap test holds if and only if one dotted path is a prefix of the other |
| `Selectors.RawEmptySelectorMissesItsFields` | libs/adapters/registry.go:50-52 | without normalisation the empty selector misses every field it owns; with it the overlap is seen |
| `Selectors.SyntaxExactly` | apps/guest/profile_materialization.go:669-682 | a selector is accepted exactly when it names the whole file or a path below the root with no dot at either end and no two together, and its fields spell it out again |
| `Documents.SelectFields` | apps/guest/profile_materialization.go:928-945 | the field walk computes the recursive selection: absent is a result, crossing a non-object an error |
| `Documents.MergeFailsWhenSelectFails` | apps/guest/profile_materialization.go:947-982 | a merge fails exactly when selecting the same path fails |
| `Documents.MergeReadsBack` | apps/guest/profile_materialization.go:947-982 | after a merge its path, and every path below it, reads the merged value |
| `Documents.MergeKeepsDisjoint` | apps/guest/profile_materialization.go:947-982 | a merge leaves every disjoint path reading as before |
| `Documents.RemoveReadsAbsent` | apps/guest/profile_materialization.go:984-1012 | after a removal its path reads as absent |
| `Documents.RemoveKeepsDisjoint` | apps/guest/profile_materialization.go:984-1012 | a removal leaves every disjoint path reading as before |
| `Documents.PresentIsRemovable` | apps/guest/profile_materialization.go:984-1012 | whatever is observed present can be removed |
| `Documents.RemovesExactly` | apps/guest/profile_materialization.go:984-1012 | a removal goes through exactly when everything on the way to its path is an object, whether or not the path is there |
| `Documents.MergeFailureIsIndependent` | apps/guest/profile_materialization.go:947-982 | an edit at a disjoint path never changes whether a merge fails |
| `Documents.MergesCommute` | apps/guest/profile_materialization.go:947-982 | two merges at disjoint selectors give the same document or the same failure in either order, and succeed together exactly when both succeed alone |
| `Documents.EditsCommute` | apps/guest/profile_materialization.go:947-1012 | any two disjoint edits that each succeed, merges or removals, commute and succeed in sequence |
| `Materialization.Prepare` | apps/guest/profile_materialization.go:300-350 | a prepared plan is valid, and if it will mutate, its observation is what the file system shows; selectors are checked on everything but referenced items whose source is present |
| `MaterializationOutcomes.ValidExactly` | apps/guest/profile_materialization.go:506-682 | which items are valid, field by field: identity, selector, JSON target, file or directory |
| `MaterializationOutcomes.PlannedExactly` | apps/guest/profile_materialization.go:300-350 | an item is planned if and only if it is valid, its target reads as it was observed, and nothing is pruned whose source is there; the plan carries its fields over |
| `MaterializationOutcomes.OperationsExactly` | libs/profile/materialization.go:115-167 | each of the eight operations is planned exactly on the mode, digests, intent, approval and cache key that call for it |
| `MaterializationOutcomes.CarriedOutExactly` | libs/profile/materialization.go:115-167 | which plans change their target and which block their batch, told from the item |
| `Materialization.RecordOwnership` | apps/guest/profile_materialization.go:446-459 | a claim is refused exactly when it overlaps an earlier one on the same target, and the record holds exactly the claims so far |
| `Materialization.PlanBatch` | apps/guest/profile_materialization.go:63-112 | the planning loop yields plans for exactly the acceptable batches: distinct identities, compatible claims, every item prepared |
| `MaterializationLaws.AcceptedPlansAreIndependent` | apps/guest/profile_materialization.go:446-459 | the ownership check makes all plans of an accepted batch pairwise independent on paths |
| `MaterializationLaws.EffectIsConfined` | apps/guest/profile_materialization.go:366-436 | applying a plan changes nothing outside its target |
| `MaterializationOutcomes.CarriedOutFileHasItsMode` | apps/guest/profile_materialization.go:366-436 | a file plan leaves every other file alone and gives its own the planned mode and, whole, the planned text; removing a field keeps the mode |
| `MaterializationLaws.ObservationIsLocal` | apps/guest/profile_materialization.go:832-926 | an observation depends only on the file system along and below its target |
| `MaterializationLaws.EffectKeepsObservation` | apps/guest/profile_materialization.go:366-436 | an applied plan never invalidates what an independent, unnested plan observed |
| `MaterializationLaws.ReobservationHolds` | apps/guest/profile_materialization.go:366-382 | however many earlier items have been applied, an item's re-observation before mutation still matches |
| `MaterializationLaws.ObservedFileIsEditable` | apps/guest/profile_materialization.go:366-436 | a file plan whose target still reads as observed can be applied |
| `MaterializationLaws.BatchRunsIffUnnested` | apps/guest/profile_materialization.go:63-141 | an accepted batch of file targets, met by no write fault, goes through if and only if its written targets are unnested |
| `MaterializationLaws.UnnestedBatchRunsIffTrees` | apps/guest/profile_materialization.go:63-141 | an accepted batch of files and directories without nested targets, met by no write fault, goes through if and only if every directory it installs is a tree |
| `MaterializationOrder.OrderedBatchRunsExactly` | apps/guest/profile_materialization.go:63-141 | an accepted batch with outer targets before inner ones, nested to any depth, goes through if and only if what it installs are trees and each outer target is a directory whose new files read at the inner target as it was observed |
| `MaterializationOrder.PairedBatchRunsExactly` | apps/guest/profile_materialization.go:63-141 | an accepted batch whose nested targets come in pairs goes through, in either order, if and only if what it installs are trees and each pair goes: the outer first as above, the inner first only if it writes back what is there and the outer is a directory |
| `MaterializationOrder.OrderDecides` | apps/guest/profile_materialization.go:446-459 | a concrete directory and file accepted in either order, applied in one and refused in the other |
| `MaterializationNesting.NestedBatchRunsExactly` | apps/guest/profile_materialization.go:63-141 | an accepted batch nested in any order and to any depth goes through if and only if what it installs are trees and every item finds its target as observed, in the files of the last directory around it or from before the batch, after the earlier items inside it alone |
| `MaterializationNesting.LeavesIsSeen` | apps/guest/profile_materialization.go:366-436 | what is found at a target after the batch is decided by the last later directory around it, or its own files, and the later plans inside it |
| `MaterializationNesting.FileReadsBack` | apps/guest/profile_materialization.go:366-436 | a file plan's selector reads what it installed for as long as no later plan lies around its target |
| `MaterializationLaws.EffectKeepsView` | apps/guest/profile_materialization.go:366-436 | an applied plan leaves what an independent, unnested plan would observe as it was, errors included |
| `MaterializationLaws.NestedTargetsPassOwnership` | apps/guest/profile_materialization.go:446-459 | a concrete batch that passes the ownership check and cannot be applied |
| `MaterializationLaws.BatchReadsBack` | apps/guest/profile_materialization.go:366-436 | after a successful batch, of files and directories apart from one another, every merged selector reads its desired value, every installed directory holds exactly its files, and everything removed reads as absent |
| `MaterializationOutcomes.EveryItemEndsAs` | apps/guest/profile_materialization.go:63-141 | once a batch has gone through, each item that no other changed target lies around or inside reads as removed, as installed (a field in the canonical text of its value), or just as before, told from the item alone |
| `MaterializationOutcomes.ManagedItemsReadAsDesired` | apps/guest/profile_materialization.go:366-436 | then an approved managed item with its source present reads as desired if and only if it owns its whole target or its text is canonical |
| `MaterializationLaws.BatchKeepsTheRest` | apps/guest/profile_materialization.go:366-436 | after any successful batch every path disjoint from all selectors applied to its file reads as before, and every file no target covers is unchanged |
| `MaterializationConvergence.LocalEditsAreKeptExceptBy` | libs/profile/materialization.go:115-167 | a planned change to a locally edited target is carried out exactly when it is approved and either prunes it or refreshes a seeded target whose cache key changed |
| `MaterializationConvergence.SeededRefreshReplacesEdits` | apps/guest/profile_materialization.go:340-343 | a concrete hand-edited seeded file that is planned for an update |
| `MaterializationConvergence.InstalledItemReads` | apps/guest/profile_materialization.go:832-945 | after any batch that goes through, an installed item's target reads as a file's own text, a field's canonical text, or, for a directory or inside a later one, as the nested plans leave it |
| `MaterializationConvergence.ReconcilingAgain` | apps/guest/profile_materialization.go:300-350 | after any batch that goes through, the next run accepts a recorded installed item if and only if its target still reads as desired, and then plans no change; otherwise every batch holding it is rejected |
| `MaterializationConvergence.AloneSettlesExactly` | apps/guest/profile_materialization.go:832-945 | an item no later target lies around or inside still reads as desired if and only if it owns its whole target or its text is canonical |
| `MaterializationConvergence.OuterDirectorySettlesExactly` | apps/guest/profile_materialization.go:857-895 | a directory with one later item inside it still reads as desired if and only if that item changes nothing in the directory's own files |
| `MaterializationConvergence.InnerItemSettlesExactly` | apps/guest/profile_materialization.go:857-895 | an item with one later directory around it still reads as desired if and only if that directory's own files read so there |
| `MaterializationConvergence.NestedDirectoryIsRefusedNextTime` | apps/guest/profile_materialization.go:338-340 | a concrete directory applied with a file inside it that is refused on the next run |
| `MaterializationConvergence.UnsettledReadsAsDrift` | apps/guest/profile_materialization.go:832-945 | observed afresh instead, a managed installed item that can be observed is blocked exactly when its target no longer reads as desired |
| `MaterializationConvergence.SpacedSettingsAreRefusedNextTime` | libs/adapters/adapter_claude.go:71-80 | a concrete settings field written with spaces that is installed and then refused |
| `JsonText.EncodeIsUnique` | apps/guest/profile_materialization.go:928-945 | no canonical text followed by a delimiter is another one followed by a delimiter |
| `JsonText.CanonicalTextDeterminesTree` | apps/guest/profile_materialization.go:928-945 | two documents have the same canonical text if and only if they are the same tree |
| `JsonText.SampleText` | apps/guest/profile_materialization.go:943 | one document with sorted keys, an array and an escaped string, character by character as it is written |
| `MaterializationEngine.Guest.WriteFile` | apps/guest/profile_materialization.go:751-787 | a file write happens entirely or not at all |
| `MaterializationEngine.Guest.WriteDirectory` | apps/guest/profile_materialization.go:789-830 | success replaces the whole target; failure may leave it partial but touches nothing else |
| `MaterializationEngine.Guest.ApplyPlan` | apps/guest/profile_materialization.go:366-436 | success is the plan's specified effect after a fresh observation; failure is confined to the target; without faults it succeeds exactly when the effect is defined |
| `MaterializationEngine.Guest.TakeBackups` | apps/guest/profile_materialization.go:154-217 | there is one exact backup for every target that will be mutated, and no other |
| `MaterializationEngine.Guest.Restore` | apps/guest/profile_materialization.go:229-264 | a restored target holds exactly its saved files and modes; nothing else changes; without faults it fails exactly below a file |
| `MaterializationEngine.RestoreKeepsRestored` | apps/guest/profile_materialization.go:219-255 | restoring one target keeps every already restored target as saved, even when targets repeat or nest |
| `MaterializationEngine.Guest.Rollback` | apps/guest/profile_materialization.go:219-227 | a successful rollback gives back the file system from before the batch; without faults every rollback does, and it reports success if and only if no target lies below a file that is rolled back only later |
| `MaterializationEngine.OuterRestoredLastBlocksRollback` | apps/guest/profile_materialization.go:257-264 | two new files, one named below the other, block the rollback in one order and not in the other |
| `MaterializationEngine.Guest.ApplyPlans` | apps/guest/profile_materialization.go:113-131 | the mutation loop reaches the specified state or stops with changes confined to backed-up targets; without faults it stops only where an effect is undefined |
| `MaterializationEngine.Guest.ApplyBatch` | apps/guest/profile_materialization.go:63-141 | all or nothing: rejected, blocked or rolled-back batches leave the file system as it was; applied ones leave the specified state; a failed rollback still touches only the batch's targets; backups of an accepted batch never fail to be taken, and without faults it is applied if and only if all its effects are defined and otherwise leaves everything as it was; once applied, every item apart from the other changed targets reads as its own fields say |
| `AutoStop.StopKeysDistinct` | apps/workflows/auto_stop.go:191-260 | two stop idempotency keys of one Environment are equal if and only if Runtime and generation are, whatever the Runtimes are called |
| `AutoStop.SuppressionHoldsIffCoordinated` | apps/workflows/auto_stop_coordinator.go:67-164 | suppression keeps every later observation of the Runtime from arming a timer exactly when the Runtime is the coordinated one |
| `AutoStop.EarlySuppressionIsForgotten` | apps/workflows/auto_stop_coordinator.go:67-164 | a concrete suppression that is forgotten |
| `AutoStopLaws.ArmsExactly` | apps/workflows/auto_stop_coordinator.go:94-164 | a timer is armed if and only if the policy is complete and this Environment's, the snapshot is complete, new, fresh and of this Runtime, none of the counters its mode waits for is above zero, no conflict is reported, the Runtime is not suppressed, and in the same coordination no timer is pending and no stop dispatched; it runs for the grace period under the next generation |
| `AutoStopLaws.FailsExactly` | libs/domain/autostop.go:111-180 | exactly which observations are refused: an inadmissible policy, no freshness threshold, an incomplete snapshot, an unknown conflict next to a new and fresh one |
| `AutoStopLaws.KeepsTheTimerExactly` | apps/workflows/auto_stop_coordinator.go:94-164 | a pending timer survives exactly such qualifying observations of its own coordination; losing it is what is reported as cancelled |
| `AutoStopLaws.ObserveLeaves` | apps/workflows/auto_stop_coordinator.go:94-164 | all that an accepted observation leaves in the state: coordination, suppression, dispatch cycle, last sequence and grace period |
| `AutoStopLaws.GenerationMoves` | apps/workflows/auto_stop_coordinator.go:94-164 | the generation moves once, modulo 2^64, past a timer that is disowned and once to arm one |
| `AutoStopLaws.StopsExactly` | apps/workflows/auto_stop_coordinator.go:166-212 | a stop is requested if and only if the pending timer itself expires under unchanged coordination, its grace began with a snapshot, and a new quiet snapshot qualifies again; the request names both |
| `AutoStopLaws.ExpiryEndsTheTimer` | apps/workflows/auto_stop_coordinator.go:166-212 | an expiry of another timer changes nothing; one of the pending timer ends it, and under changed coordination observes instead |
| `AutoStopLaws.SuppressDisownsTheTimer` | apps/workflows/auto_stop_coordinator.go:67-82 | suppression disowns the pending timer, fills the one slot and leaves the rest |
| `AutoStopLaws.ResumeClearsItsOwnSlot` | apps/workflows/auto_stop_coordinator.go:84-92 | resuming clears the slot and reopens the cycle exactly for the suppressed Runtime |
| `AutoStopLaws.AbandonForgets` | apps/workflows/auto_stop.go:366-383 | an abandoned object keeps its Environment and its generation only |
| `AutoStopLaws.MessagesArmExactly` | apps/workflows/auto_stop.go:91-260 | the same for whole messages, with what each kind counts as fresh |
| `AutoStopLaws.MessagesStopExactly` | apps/workflows/auto_stop.go:191-260 | only the delivery of the pending timer to a Runtime that is still there stops it, when its dispatch goes through; a refused dispatch reopens the cycle, a failed one stores nothing |
| `AutoStopRuns.ObserveIsOrderly` | apps/workflows/auto_stop_coordinator.go:94-164 | an observation only arms newer timers, remembers when the grace began, and never stops |
| `AutoStopRuns.ExpireIsOrderly` | apps/workflows/auto_stop_coordinator.go:166-212 | an expiry does the same, and may stop only from the current pending timer |
| `AutoStopRuns.StopIsJustified` | apps/workflows/auto_stop_coordinator.go:166-212 | every emitted stop ends the pending timer's grace period with evidence the audit accepts |
| `AutoStopRuns.StopWaitsOutTheGrace` | apps/workflows/auto_stop_coordinator.go:166-212 | if the timer was delivered no sooner than its delay, the stop comes no sooner than the full grace period |
| `AutoStopRuns.StepKeepsInvariant` | apps/workflows/auto_stop.go:91-260 | every handler invocation keeps the run invariant, wherever the counter stands |
| `AutoStopRuns.RunsKeepInvariant` | apps/workflows/auto_stop.go:91-260 | every run, of any length, keeps the run invariant |
| `AutoStopRuns.TimersAndStops` | apps/workflows/auto_stop.go:191-260 | over every run each timer carries its unwrapped tick modulo 2^64, ticks increase, a stop ends an armed tick that was never cancelled, at most once, and two stops share a key if and only if they stop the same Runtime a whole number of counter widths apart |
| `AutoStopRuns.StopsAreJustified` | apps/workflows/runtime_lifecycle.go:380-399 | every stop of every run carries evidence the stop workflow's validator accepts |
| `AutoStopLaws.StopsNeedTwoQuietMessages` | libs/domain/autostop.go:111-157 | over every run each stop comes under one of the three automatic modes from two fresh snapshots brought by two messages without conflicts, the second the timer's own delivery, and in both the counters its mode waits for are zero |
| `AutoStopRuns.SuppressedRuntimeHasNoTimer` | apps/workflows/auto_stop_coordinator.go:67-92 | in every run no timer is pending while the coordinated Runtime is suppressed |
| `AutoStopRuns.GenerationsIncreaseExactlyBelowTheTop` | apps/workflows/auto_stop_coordinator.go:94-164 | the generations a run arms strictly increase if and only if it armed its last timer below the counter's width |
| `AutoStopRuns.ArmingOutranksExactlyBelowTheTop` | apps/workflows/auto_stop_coordinator.go:94-164 | a newly armed generation exceeds all earlier ones if and only if the counter has room for one move, or two with a timer pending |
| `AutoStopRuns.WrappingRevivesACancelledTimer` | apps/workflows/auto_stop_coordinator.go:94-164 | a run of snapshots, idle and busy by turns, past the top of the counter after which a cancelled timer is current again |
| `AutoStopRuns.NoTimerAfterStop` | apps/workflows/auto_stop.go:241-256 | after a stop no timer is armed and no stop emitted until coordination changes, the Runtime is resumed or abandoned, or dispatch is refused |
| `AutoStopRuns.StopClosesCycle` | apps/workflows/auto_stop_coordinator.go:166-212 | a stop closes the dispatch cycle if and only if the stopped generation is not 0, which happens only past the counter's top |
| `AutoStopRuns.SuppressionHoldsExactlyOver` | apps/workflows/auto_stop_coordinator.go:67-92 | one message leaves the coordinated Runtime suppressed if and only if it is refused, an expiry, an observation of the same Runtime, its own suppression again, or the resumption of another |
| `AutoStopRuns.SuppressionLasts` | apps/workflows/auto_stop_coordinator.go:67-92 | over a run the coordinated Runtime stays suppressed if and only if every message is of that kind, and then gets no timer and no stop |
| `AutoStopRuns.AnotherSuppressionLiftsTheFirst` | apps/workflows/auto_stop_coordinator.go:67-92 | a concrete run in which suppressing a second Runtime lets the first be armed |
| `AutoStopRuns.AutoStopObject.Suppress` | apps/workflows/auto_stop.go:91-102 | the handler answers as the coordinator decides and commits one step of the object's run, which keeps the run invariant; an error stores nothing |
| `AutoStopRuns.AutoStopObject.Resume` | apps/workflows/auto_stop.go:104-115 | the same for resuming |
| `AutoStopRuns.AutoStopObject.Observe` | apps/workflows/auto_stop.go:128-150 | the same for an observation, with its timer scheduled |
| `AutoStopRuns.AutoStopObject.Refresh` | apps/workflows/auto_stop.go:155-189 | the same for a policy refresh, abandoning a Runtime that is gone |
| `AutoStopRuns.AutoStopObject.Expire` | apps/workflows/auto_stop.go:191-260 | the same for an expiry, with a refused dispatch reset |
| `AutoStopDelivery.PendingTimerIsAwaitedExactlyUnlessFailed` | apps/workflows/auto_stop.go:191-260 | over every run with each timer message delivered at most once, a pending timer is the one armed last, and its message is on the way if and only if no delivery of it ended in an error and it was not dropped for reusing a key; below the counter's top none is dropped |
| `AutoStopDelivery.FailedExactly` | apps/workflows/auto_stop.go:191-260 | the messages counted as failed are just those whose delivery ended in an error |
| `AutoStopDelivery.StuckExactlyWhileIdle` | apps/workflows/auto_stop_coordinator.go:94-164 | below the counter's top an invocation leaves a timer whose message failed pending if and only if it finds the Runtime idle under the same policy, is refused, resumes, or expires another timer; it then arms and stops nothing |
| `AutoStopDelivery.StuckRuntimeIsNeverStopped` | apps/workflows/auto_stop_coordinator.go:146-148 | over every such continuation no timer is armed and nothing is stopped |
| `AutoStopDelivery.FailedDispatchStrandsTheTimer` | apps/workflows/auto_stop.go:234-241 | for every number of idle snapshots after a dispatch that failed for good, the timer is pending, no message is on the way and nothing is stopped |
| `ConnectionIntents.Store.ReplayConnectionIntent` | libs/db/connection_intents.go:168-191 | the first critical section returns the record of the key exactly when it is unexpired for this caller and of this Environment, and reports none exactly when there is neither a living record nor an Operation |
| `ConnectionIntents.Store.PersistPreparedConnectionIntent` | libs/db/connection_intents.go:193-252 | the second critical section re-checks everything, returns a living record or inserts exactly what it minted, its expiry as stored, over at most an expired row; every other outcome leaves the table as it was, and keys stay exclusive and identities distinct |
| `ConnectionIntents.Store.ConsumeConnectionIntent` | libs/db/connection_intents.go:39-78 | spends if and only if some unused row has this owner, ID and Environment, was created before it expires and has not expired at the stored time; only the time of use changes, and lies between creation and expiry |
| `ConnectionIntents.Store.PruneConnectionIntents` | libs/db/connection_intents.go:381-390 | keeps exactly the rows that expire after the stored boundary, unchanged |
| `ConnectionIntents.Store.ReserveRuntimeOperation` | libs/db/runtime_operations.go:34-93 | refuses while a living Intent holds the key; else replays exactly the same Environment, kind and input, or inserts what is allowed, so no key has both |
| `IntentRuns.LivingRowsStay` | libs/db/connection_intents.go:193-252 | no step replaces, prunes or re-identifies a row that is still alive |
| `IntentRuns.SuccessReturnsTheRow` | libs/db/connection_intents.go:132-166 | a successful create returns the row its key holds at that moment, a new one with its expiry before rounding |
| `IntentRuns.ExecutionsKeepInvariant` | libs/db/connection_intents.go:132-271 | every interleaving keeps the protocol invariant |
| `IntentRuns.OperationAndIntentExclude` | libs/db/operation_idempotency.go:12-36 | no interleaving gives one owner and key both an Operation and a living Intent |
| `IntentRuns.FirstOperationStays` | libs/db/runtime_operations.go:96-108 | over every execution a key keeps its first Operation |
| `IntentRuns.OnlyTheSameOperationReplays` | libs/db/runtime_operations.go:96-108 | a key that has an Operation accepts exactly requests for the same Environment, kind and input, and they change nothing |
| `IntentRuns.ConsumedAtMostOnce` | libs/db/connection_intents.go:39-78 | each Intent ID is consumed at most once |
| `IntentRuns.NothingElseIsConsumed` | libs/db/connection_intents.go:39-78 | over every execution what is consumed was returned by a create of that owner for that Environment, was unused, and is consumed before its stored expiry |
| `IntentRuns.ConsumableExactly` | libs/db/connection_intents.go:45-60 | and a row can be consumed exactly by its owner, for its Environment, under its ID, unused, before it expires |
| `IntentRuns.PruningRemovesExactlyTheExpired` | libs/db/connection_intents.go:381-390 | in every reachable world pruning leaves no row that has expired at the boundary and every row that has not |
| `IntentRuns.OneIntentPerLifetime` | libs/db/connection_intents.go:132-271 | all creates that succeed on one key before an Intent's stored expiry return that Intent and its Environment |
| `IntentRuns.TwoIntentsInOneLifetime` | libs/db/connection_intents.go:193-252 | for every lifetime not ending at a whole microsecond, an execution in which a second create before the returned expiry gets another Intent |
| `IntentRuns.FreshMintNeverRaces` | libs/db/connection_intents.go:193-252 | with freshly minted IDs the insert race the code guards against cannot arise |
| `Ancestry.WalkUp` | apps/guest/activity.go:228-242 | one ancestor walk ends at validated or unsampled ground along distinct processes, or finds a cycle |
| `Ancestry.ValidateAncestry` | apps/guest/activity.go:225-248 | the memoised check accepts exactly the acyclic parent maps, and then ranks every process above its parent |
| `Activity.FindTrackedAncestor` | apps/guest/activity.go:278-285 | on an accepted sample the walk ends and finds a tracked proper ancestor if and only if there is one |
| `Activity.FindAgentTree` | apps/guest/activity.go:356-363 | true exactly when the nearest tracked process upward holds the process in its cgroup subtree |
| `Activity.CountAgentRoots` | apps/guest/activity.go:267-276 | counts exactly the tracked processes with no tracked proper ancestor |
| `Activity.CountProtected` | apps/guest/activity.go:287-295 | counts exactly the protected processes |
| `Activity.IsUnknown` | apps/guest/activity.go:316-333 | decides the specification of unknown activity for one process |
| `Activity.CountUnknown` | apps/guest/activity.go:307-336 | counts exactly the unknown user processes |
| `Activity.CountCgroupScopes` | apps/guest/activity.go:369-381 | counts exactly the processes that are not baseline inside and outside the user's session |
| `Activity.CountContainers` | apps/guest/activity.go:388-406 | counts exactly the running selected containers that make up the selected IDs |
| `ActivityLaws.EachTrackedProcessHasOneRoot` | apps/guest/activity.go:267-285 | every tracked process has exactly one agent root on its way up, so roots count agent trees |
| `ActivityLaws.AgentsExistExactlyWhenRootsDo` | apps/guest/activity.go:267-285 | the agent count is positive if and only if some tracked process exists |
| `ActivityLaws.NotBaselineIsReported` | apps/guest/activity.go:307-354 | any process that is not baseline makes some count positive |
| `ActivityLaws.NoBusyRuntimeLooksIdle` | apps/guest/activity.go:267-406 | with all five counts at zero every process is baseline and both scope counts are zero |
| `ActivityLaws.IdleExactlyWhenOnlyBaseline` | apps/guest/activity.go:267-406 | exactly which samples look idle |
| `ActivityLaws.EscapedIsUnknownOutsideContainers` | apps/guest/activity.go:316-326 | an escaped process is unknown exactly when no running selected container holds it |
| `ActivityLaws.EscapedWithoutUnknown` | apps/guest/activity.go:444-446 | a concrete escaped process that is not unknown |
| `ActivityObserver.SubtreeIsFieldPrefix` | apps/guest/activity.go:365-367 | the string subtree test means that one path's elements extend the other's |
| `ActivityObserver.RootHoldsOnlyItself` | apps/guest/activity.go:365-367 | no clean path but the root lies in the root's subtree |
| `ActivityObserver.OnlyTheUserManagerRemains` | apps/guest/activity.go:338-354 | in a sample with all counts at zero the only process the user owns or that runs under the user's slice is the systemd user manager in its init scope |
| `ActivityObserver.RootsAreTopmostAgents` | apps/guest/activity.go:267-305 | an agent is counted exactly if it is allowed, in the session or a selected container, and no proper ancestor is |
| `ActivityObserver.ScopesAreCountedExactly` | apps/guest/activity.go:287-386 | which processes are protected, in the session or escaped, told from owner, executable and cgroup elements |
| `ActivityObserver.UnknownIsCountedExactly` | apps/guest/activity.go:307-363 | which processes are unknown: not held by a selected container and escaped, or in the session and neither the user manager nor protected nor below the nearest agent |
| `ActivityObserver.AcceptedExactly` | apps/guest/activity.go:202-218 | exactly which samples are acceptable, field by field |
| `ActivityObserver.SamplesAreHeld` | apps/guest/activity.go:202-223 | the map of an acceptable sample holds exactly its processes, all valid |
| `ActivityObserver.CollectProcesses` | apps/guest/activity.go:202-218 | accepts exactly valid samples that agree on every repeated PID, as a map by PID |
| `ActivityObserver.UniqueProcesses` | apps/guest/activity.go:202-223 | accepts exactly the valid, consistent and acyclic samples |
| `ActivityObserver.Observe` | apps/guest/activity.go:142-189 | reports the specified counts for exactly the accepted samples, and zero activity only when every process is baseline |
| `Paths.CleanRootedPathsArePlain` | apps/guest/activity.go:211-213 | a rooted path is its own cleaned form exactly when it is the root or all its elements are proper names |
| `Paths.SafeNamesStayInside` | apps/guest/capsule_materialization.go:371-374 | an entry name passes the escape check exactly when it is "." or a list of proper names |
| `DeadlinePoll.Poll` | apps/workflows/durable_deadline_poll.go:45-144 | ends at the first point where a value is accepted or the deadline has passed, fails exactly on a bad journal answer, sleeps for the initial delay and then twice the last one up to the largest, never past the time left, and linearly often under an honest clock |
| `DeadlinePoll.HonestPollsEnd` | apps/workflows/durable_deadline_poll.go:83-144 | with sleeps that advance the clock, at most window / min(initialDelay, maxDelay) + 2 reads are made, so a longer journal cannot leave the poll unfinished |
| `DeadlinePoll.AcceptedWasEvaluated` | apps/workflows/durable_deadline_poll.go:71-135 | an accepted value comes from evaluating the initial value or an answer that was not a retryable failure |
| `DeadlinePoll.TimeoutsAreLate` | apps/workflows/durable_deadline_poll.go:85-139 | a timed-out poll made its last check at or past the deadline, any other holds an accepted value |
| `DeadlinePoll.EndsOnce` | apps/workflows/durable_deadline_poll.go:83-144 | no poll could have ended at another point |
| `ReplacementRuns.Workflow.WaitForState` | apps/workflows/runtime_lifecycle.go:312-378 | reaches the expected state exactly when the poll accepts such a sighting, which is then the trace's last event and has the old spec, the old provider ID and that state |
| `ReplacementRuns.Workflow.StopOld` | apps/workflows/runtime_replace.go:124-170 | stop is issued only right after a running sighting, and always on the way from one, and the step ends well exactly when the compute of the old spec and provider ID is seen stopped or terminated |
| `ReplacementRuns.Workflow.SettleOld` | apps/workflows/runtime_replace.go:171-185 | usage is closed at the time of the sighting that found the compute gone, and the volume is verified before anything is retired |
| `ReplacementRuns.Workflow.RetireOld` | apps/workflows/runtime_replace.go:187-211 | retire is issued only on a stopped compute with a verified volume, and ends well exactly on a terminated sighting of the old spec and provider ID |
| `ReplacementRuns.Workflow.AwaitDetachment` | apps/workflows/runtime_replace.go:438-497 | ends well exactly when the volume is observed detached under its own identity, after the termination |
| `ReplacementRuns.Workflow.AttachNew` | apps/workflows/runtime_replace.go:225-301 | allocation and attachment are issued only after the old writer is gone, allocation exactly on a reservation and attachment exactly on a matching allocation, answered or not; what is attached has the new spec and the allocated provider ID |
| `ReplacementRuns.Workflow.Replace` | apps/workflows/runtime_replace.go:83-301 | against any answers, lost ones too, every issued call and every answer of the trace is justified by what came before, the volume is attached if and only if every gate was passed, and then to the new spec under the allocated provider ID, with usage closed, volume verified, stop and retirement issued where called for |
| `ReplacementLaws.SingleWriter` | apps/workflows/runtime_replace.go:187-301 | no allocation or attachment is even issued before an answer reported a compute with the old spec and provider ID terminated and, after that, the old volume was seen detached |
| `ReplacementLaws.StopsOnlyWhatRuns` | apps/workflows/runtime_replace.go:124-170 | a stop is issued right after an answer that the compute of the old spec and provider ID runs |
| `ReplacementLaws.RetiresOnlyTheStopped` | apps/workflows/runtime_replace.go:187-211 | a retirement is issued only after that very compute was reported stopped and the volume verified |
| `ReplacementLaws.ClosesUsageAtTheReport` | apps/workflows/runtime_replace.go:171-185 | usage is closed at the time of the very report that the old compute is stopped or terminated |
| `ReplacementLaws.LooksFollowTermination` | apps/workflows/runtime_replace.go:187-301 | volumes are verified after the old compute is gone and looked at only after it was reported terminated |
| `ReplacementLaws.EveryAnswerIsLogged` | apps/workflows/runtime_lifecycle.go:336-372 | every answer a wait reads is in the trace, in order, and nothing else |
| `ReplacementLaws.EveryLookIsLogged` | apps/workflows/runtime_replace.go:438-497 | and so is every look at the volume |
| `ReplacementLaws.AwaitedExactly` | apps/workflows/runtime_lifecycle.go:312-378 | a wait ends well exactly at an answer that reports the old spec and provider ID in the expected state, in time order and before the deadline, all earlier answers being worth waiting on |
| `ReplacementLaws.DetachesExactly` | apps/workflows/runtime_replace.go:438-497 | the wait for the volume ends well exactly at a look that shows that volume detached in time, all earlier looks showing it with the old compute, writable |
| `ReplacementLaws.AttachesExactly` | apps/workflows/runtime_replace.go:83-301 | the volume is attached if and only if, for the state first reported, every call and wait that this state calls for turns out well, spelled out in the answers |
| `Decimals.DecimalSecondsIsExact` | libs/db/billing_usage.go:218-226 | a printed duration parses to exactly nanoseconds / 10^9, with a fraction of one to nine digits and no trailing zero if any |
| `Decimals.ParsesExactly` | libs/billing/rate.go:100-109 | a quantity is accepted exactly when it is digits with at most one point, neither first nor last |
| `Decimals.ParsedValue` | libs/billing/rate.go:100-109 | and then is the number its digits spell, over a power of ten for those after the point |
| `Decimals.DebitIsRateTimesElapsed` | libs/billing/rate.go:85-109 | conversion yields an amount exactly when it is rate times seconds, whole and within int64 |
| `Ledger.NewGrant` | libs/billing/ledger.go:49-54 | an accepted grant carries just the granted credits, which are positive, and the names and times it was given, which are present and in order |
| `Ledger.NewDebit` | libs/billing/ledger.go:70-93 | an accepted debit takes exactly what the rate makes of the quantity and carries the usage, names and times it was given; it is refused only for an impossible conversion or what is missing or out of order |
| `Ledger.CreditBalance.Check` | libs/billing/ledger.go:159-178 | decides, from the two maps and the running total, the outcome defined on the true history |
| `Ledger.CreditBalance.Apply` | libs/billing/ledger.go:159-185 | the balance changes exactly for a transaction of the user with a fresh key and ID whose true sum fits int64; exactly what is in the history is a replay, and what shares its key or ID is a conflict, which leave it untouched |
| `Billing.IDsCollideExactlyOnPolarNames` | libs/db/billing_webhooks.go:207-214 | debit and grant transaction IDs coincide exactly for an interval named after the event |
| `BillingIdentities.DebitIDIsTakenExactlyByAGrant` | libs/db/billing_usage.go:164-182 | in consistent books the transaction ID of an interval not yet closed is taken if and only if a granted event names it |
| `BillingIdentities.GrantIDIsTakenExactlyByADebit` | libs/db/billing_webhooks.go:201-240 | in consistent books the transaction ID of an event not yet granted is taken if and only if a closed interval is named after it |
| `BillingIdentities.CloseIsRefusedExactlyOnGrantedNames` | libs/db/billing_usage.go:122-216 | a close that is otherwise in order is refused, changing nothing, if and only if its interval is named after a granted event or its stop is stored no later than its start |
| `BillingIdentities.GrantIsRefusedExactlyOnClosedNames` | libs/db/billing_webhooks.go:43-114 | a grant that is otherwise in order is refused with its whole delivery if and only if a closed interval is named after its event |
| `BillingIdentities.NeverClosedAndGranted` | libs/db/billing_webhooks.go:207-214 | in no reachable state are an event granted and the interval named after it closed |
| `BillingIdentities.GrantThenCloseIsRefused` | libs/db/billing_usage.go:164-187 | for every event name, a run after which the interval named after the granted event cannot be closed |
| `BillingIdentities.CloseThenGrantIsRefused` | libs/db/billing_webhooks.go:201-240 | for every event name, a run after which the event cannot be granted |
| `BillingIdentities.SaturatedClose` | libs/db/billing_usage.go:164-172 | a run whose close debits 2^63 - 1 nanoseconds of the 10^19 that elapsed |
| `BillingStore.Store.CreateUser` | libs/db/migrations/00009_billing.sql:186-199 | a new user has an empty balance |
| `BillingStore.Store.OpenInterval` | libs/db/billing_usage.go:57-104 | an open inserts with the start as stored, replays or refuses as specified, atomically, and the books stay those of a run |
| `BillingStore.Store.CloseInterval` | libs/db/billing_usage.go:122-216 | a close appends debit, balance and delivery and closes the interval together, returns a closed one's debit as stored, or changes nothing; what it returns names the interval's user, Environment and Runtime, and the books stay those of a run |
| `BillingStore.Store.ApplyProjection` | libs/db/billing_webhooks.go:43-114 | a projection registers, grants or updates together, repeats a known event, or changes nothing, and the books stay those of a run |
| `BillingRuns.AppendKeepsBalance` | libs/db/billing_usage.go:174-187 | inserting a transaction and adding it to its user's row keeps every balance a sum |
| `BillingRuns.CloseKeepsInv` | libs/db/billing_usage.go:122-216 | every close keeps the books consistent and only extends them |
| `BillingRuns.ProjectKeepsInv` | libs/db/billing_webhooks.go:43-114 | every webhook delivery keeps the books consistent and only extends them |
| `BillingRuns.RunsKeepInv` | libs/db/billing_usage.go:57-216 | every sequence of transactions keeps the books consistent and append-only |
| `BillingRuns.BalancesAreSums` | libs/db/billing_usage.go:183-187 | in every reachable state each balance is the sum of its user's transactions |
| `BillingRuns.IntervalsAreBilledOnce` | libs/db/billing_usage.go:122-216 | an interval is closed if and only if it has a debit and a delivery, and then exactly one of each |
| `BillingLaws.DebitsMeasureTheirInterval` | libs/db/billing_usage.go:163-187 | in every reachable state the debit of a closed interval is its user's, names its Environment and Runtime, takes credits, and measures the printed time from its start to a stop stored as its end |
| `BillingLaws.CloseReturnsItsDebit` | libs/db/billing_usage.go:163-213 | what a close returns and writes down: names, user, kind, usage, times, ledger row, balance, delivery and closure |
| `BillingLaws.ReturnedDebitIsOfTheInterval` | libs/db/billing_usage.go:141-150 | whatever a close or a re-close returns is for the interval's user, Environment and Runtime, under its names |
| `BillingLaws.OpensExactly` | libs/db/billing_usage.go:57-104 | exactly which opens succeed, and that they add at most their one interval |
| `BillingLaws.ClosesExactly` | libs/db/billing_usage.go:122-216 | in every reachable state exactly which closes of an open interval succeed: a stop stored after the start, a rate that makes whole credits of the time, a balance that bears them, no granted event of that name |
| `BillingRuns.EventsGrantOnce` | libs/db/billing_webhooks.go:201-240 | an event's grant is booked exactly when it was recorded, at most once, and only for a received event |
| `BillingLaws.AppliesExactly` | libs/db/billing_webhooks.go:43-114 | exactly which new deliveries are applied: complete, the customer the user's own or nobody's, and an accepted subscription or a grant that can be booked |
| `BillingLaws.AppliedDeliveryIsWrittenDown` | libs/db/billing_webhooks.go:43-240 | what an applied delivery leaves: its receipt, its customer, and for a grant one transaction with just the delivered credits, user and times |
| `BillingLaws.CustomersAreKeptApart` | libs/db/billing_webhooks.go:179-199 | over every run a user keeps its first customer, no two users share one, and a delivery naming another customer, or another user's, is refused and changes nothing |
| `BillingRuns.OpenIntervalsExclude` | libs/db/migrations/00009_billing.sql:66-72 | over every run no Environment and no Runtime has two intervals open at once |
| `BillingRuns.ReCloseReplays` | libs/db/billing_usage.go:141-150 | closing again after any further run and with any stop time changes nothing and returns the first debit with its times as stored, unless that is the zero time; it is the debit first returned if and only if the stop was a whole microsecond |
| `BillingRuns.RedeliveryChangesNothing` | libs/db/billing_webhooks.go:64-78 | redelivery after any further run changes nothing: a repeat if type and payload agree and the time equals the stored one, refused otherwise; the same delivery is a repeat if and only if its time is a whole microsecond |
| `BillingRuns.CloseDebitsRateTimesElapsed` | libs/db/billing_usage.go:164-172 | a close debits rate times the time since the stored start exactly when that time fits a duration |
| `BillingTimes.ReopenReplaysExactlyOnMicroseconds` | libs/db/billing_usage.go:80-103 | opening again after any further run changes nothing and replays if and only if user, Environment and Runtime agree and the start equals the stored one; the same request replays if and only if its start is a whole microsecond |
| `BillingTimes.StopInTheStartsMicrosecondIsRefused` | libs/db/migrations/00009_billing.sql:59 | in every reachable state a close that is otherwise in order is refused if and only if its interval is named after a granted event or its stop comes less than a microsecond after the stored start |
| `BillingTimes.OpenedThenClosedDebits` | libs/db/billing_usage.go:164-172 | over every run from an open to a close, the debit is rate times the time asked for exactly when the start is a whole microsecond and the time fits a duration, or the duration saturated at just that time |
| `BillingTimes.RetriedOpenConflicts` | libs/db/billing_usage.go:96-99 | a concrete open that is refused when it is repeated |
| `BillingTimes.RetriedDeliveryConflicts` | libs/db/billing_webhooks.go:66-69 | a concrete delivery that is refused when it is repeated |
| `BillingTimes.ImmediateStopIsRefused` | libs/db/billing_usage.go:151-153 | a concrete stop after the start that cannot close its interval |
| `Ordering.SortOfDistinct` | libs/capsule/builder.go:280-281 | sorting by distinct paths is strictly ordered and keeps exactly the elements |
| `Ordering.StrictOrderIsUnique` | libs/capsule/builder.go:280-281 | two strictly sorted sequences with the same elements are equal, so the layer is deterministic |
| `Ordering.BelowIsLexicographic` | libs/capsule/builder.go:280-281 | the order of paths is that of the first difference, a proper prefix first |
| `Canonical.DeduplicateSorted` | libs/capsule/canonical.go:112-123 | the in-place compaction yields the deduplicated prefix of the original contents |
| `Canonical.CanonicalExactlyOnSets` | libs/capsule/canonical.go:104-123 | two requirement lists have the same canonical form if and only if they name the same things |
| `Canonical.USTARPathsExactlySplit` | libs/capsule/builder.go:285-311 | a path is accepted exactly when it is ASCII without NUL and is at most 100 long or splits at a slash into a prefix of 1 to 155 and a name of 1 to 100 |
| `Capsule.CanonicalIndex` | libs/capsule/canonical.go:70-88 | encodes exactly the valid indexes: known paths, digests and modes, no repeated path |
| `CapsuleLayers.CollectTree` | libs/capsule/builder.go:214-283 | collects sorted entries and index for exactly the trees whose every node is packable |
| `CapsuleLayers.BuildLayer` | libs/capsule/builder.go:41-139 | builds the sorted entries followed by the canonical index for exactly the buildable trees |
| `CapsuleLayers.ExtractLayer` | apps/guest/capsule_materialization.go:325-407 | returns the sorted files of exactly the acceptable layers |
| `CapsuleLaws.AcceptedLayersMatchTheirIndex` | apps/guest/capsule_materialization.go:325-407 | what is extracted is in path order and one to one with the index, with matching digest and mode and names that stay inside the root |
| `CapsuleExtents.UnpacksExactly` | apps/guest/capsule_materialization.go:325-407 | exactly which layers are unpacked, entry by entry and line by line |
| `CapsuleExtents.UnpackedFiles` | apps/guest/capsule_materialization.go:375-407 | one file comes out for every regular entry but the index, with its name, content and permission bits |
| `CapsuleLaws.BuiltLayersAreAccepted` | libs/capsule/builder.go:41-139 | every built layer passes the extractor's checks |
| `CapsuleExtents.PacksExactly` | libs/capsule/builder.go:214-283 | exactly which trees are packed: some regular file, and everything a directory or a regular file with one link at a path that fits |
| `CapsuleExtents.PackedEntries` | libs/capsule/builder.go:75-139 | the entries and index lines of a packed tree, with their kinds, contents, digests and normalised modes, in order, the index last |
| `CapsuleLaws.UnpackingReturnsTheTree` | libs/capsule/builder.go:41-139 | extracting a built layer returns exactly the tree's regular files in path order with modes normalised to 0755 or 0644 |
| `CapsuleExtents.RoundTripFiles` | libs/capsule/builder.go:41-139 | a file comes out of a packed and unpacked tree if and only if the tree has it, with mode 0755 if it had an execute bit and 0644 otherwise |

## Left out

- TOML selectors: edits are modelled on JSON documents; an emptied TOML document is refused by the next decode, and TOML selections, which the source makes canonical on both sides, are not modelled.
- JSON decoding: a document's content is its text together with the tree it decodes to, and the model does not say which texts decode to which tree; the canonical encoding of a tree is modelled in full, with number literals kept as written.
- Digests: SHA-256 is represented by the content it hashes, so two digests are equal exactly when the contents are.
- File systems: empty directories, directory modes, symbolic links and leftover temporary names are not modelled; the Home and Workspace roots are disjoint trees; nested maps edited in place are values.
- Materialization approvals, metrics and scope checks: approval is a flag on each item; conflict metrics, kind checks and the check for repeated Component IDs are not modelled.
- Auto-stop snapshot polling and decision echoes: a handler receives the snapshot it settled on; timers may be delivered at any time and in any order; a handler whose error is retried is taken as not yet completed.
- Connection Intent preparation: the Environment lock and the identity mapping are input decisions, each transaction is atomic under its locks, the store's Operation writers read a clock that never runs backwards, and the classification of validation errors is not modelled.
- `RecordProfileResolveInvocation`: inserts Operations under its own key prefix without the shared lock, so key exclusion is stated for the writers that take it.
- Activity connections and container uniqueness: SSH connections are counted apart, and containers arrive as a map; sample timestamps and sequence numbers are not modelled.
- Poll step names and integer widths: durations are unbounded integers, so an overflow of a doubled delay is not modelled, and journal keys are left out.
- Replacement before and after the volume: the replacing transition, suppression of auto-stop, and everything after a validated attachment (inventory, start, readiness, host identity, resume) are not modelled; transient errors of single calls are retried by the workflow engine and appear as their final answer or as an abort.
- `ReplacementRuns.Workflow.SettleOld`: says when usage is closed on the way through; it makes no claim that every failed replacement closes the interval, because some provider divergences end without closing it.
- Billing tables around the ledger: rate selection, subscription rows, foreign keys to Environments and the database's range of times are inputs or left out; a restored debit is rebuilt from its row without reading its rate again; adjustments and refunds have no store transaction.
- Capsule bytes: gzip and tar layout, headers' owners and times, registry pulls and the manifest digest are not modelled; component type and epoch checks are left out.
- HTTP handlers, token clients, object storage, adapters' translation of settings, SSH admission counters and Environment creation are not modelled; they would add members without adding invariants.
