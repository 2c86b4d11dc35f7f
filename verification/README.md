# ReklamZeka protocols, verified

A Dafny model of the stateful protocols of ReklamZeka and of the algorithms its acceptance scripts rely on, with proofs of
what they keep over every run. A repository whose methods update rows is a class with those rows as fields, each method
proved against a function of the old state; the theorems are about that function and about sequences of requests, so they
hold for every interleaving of workers (each request is one database transaction, and a worker's turn of several requests
leaves room for others' between them). Run `dafny verify dfyconfig.toml`.

- **Canonical JSON** (`KeyedSequences`, `CanonicalJson`, `JsonTextUnambiguous`, `CanonicalJsonTheorems`,
  `CanonicalTextForm`). The text that
  every digest hashes: keys sorted by UTF-16 code unit at every depth (as in section 3.2.3 of RFC 8785), strings escaped as
  in section 7 of RFC 8259, array-index keys first as JavaScript enumerates them. Two values have one canonical text exactly
  when they mean the same.
- **Savepoints** (`Savepoints`). PostgreSQL's stack of named savepoints under the scripts' seven helpers, refined to plain
  nested transactions, with the exact condition under which a reused name breaks this.
- **Guide runs** (`GuideRuns`, `GuideRunTheorems`, `GuideRunRules`, `GuideRunRepository`). Event chains under a lease: the chain verifier
  accepts exactly what creating and appending produce, compare-and-set has one winner per head, fences follow the last grant.
- **Decision ledger** (`HashChain`, `DecisionLedger`, `DecisionLedgerTheorems`, `DecisionLedgerRules`,
  `DecisionLedgerFormats`, `DecisionLedgerRepository`).
- **Decision room** (`DecisionSchedules`, `DecisionScheduleRules`, `DecisionRuns`, `DecisionRunTheorems`, `DecisionRunRules`,
  `DecisionRoom`, `DecisionRoomRules`).
- **Local session** (`EnvironmentFile`, `EnvironmentFileTheorems`, `Base64`, `LocalSession`, `LocalSessionRules`). The `.env` parser and rewriter
  agree, and the signing-key check is exact (sections 3.5 and 4 of RFC 4648).
- **Agent client** (`LineFraming`, `AgentClient`, `AgentClientTheorems`). Newline framing of chunks, and four requests in turn.
- **Guide lifecycle** (`GuideLifecycle`, `GuideLifecycleRules`), **guide overlap** (`GuideOverlap`, `GuideOverlapTheorems`,
  `GuideOverlapRules`).
- **Context invalidation** (`ContextInvalidation`, `ContextInvalidationTheorems`, `ContextInvalidationRules`).
- **Findings** (`FindingLedger`, `FindingLedgerTheorems`, `FindingLedgerRules`), **resumable sync** (`MetaSync`), **read-sync
  schedule** (`ReadSyncSchedule`, `ReadSyncRules`), **cause chains** (`CauseChain`).

The modules named `...Rules` say what every request answers and changes, without the definitions that the model is made
of. `Histories` runs a system over a sequence of requests; `Sequences` and `Options` hold what several modules share.

A hash is modelled by what it digests, so SHA-256 is taken to be injective; in the decision ledger it is a function, and
the theorems name the collision that they would need. Fresh UUID tokens are numbered in the order they are issued. Times are
integers.

## Where the code does something else than one would expect

Each is proved as stated by the member named.

- A helper used inside another of the same savepoint name can lose the outer rollback (`Savepoints.ReusedNameLosesRollback`;
  exactly when: `ReusedNameExactly`).
- The run verifier accepts a first event with a reason code (`GuideRunTheorems.VerifierAcceptsUncleanGenesis`) or before its
  slot (`VerifierAcceptsEarlyStart`; exactly when: `VerifierIsExact`); the database refuses the former on insert. An earlier
  lease token is not barred for ever: it can reclaim the run in its turn (`EarlierTokenCanReturn`), but then under a new epoch.
- Replaying a ledger record compares raw text, so the same record with its keys in another order is a conflict
  (`DecisionLedgerTheorems.ReorderedReplayConflicts`).
- A decision-room attempt also counts taken-over expired leases (`DecisionRunTheorems.AttemptIsOnePlusFailures`).
- The run store checks the scope in a claim, not the stored one, so two runs of one scope can be live
  (`DecisionRunTheorems.OtherScopeOverlaps`). A claim on a free stored run is safe exactly when it names the stored scope
  (`SafeExactlyForStoredScope`), as the executor's claims do.
- Archiving a guide does not move its head version (`GuideLifecycle.VersionCountsMoves`) and is never final: activation does
  not look at it (`ActivatesExactly`), nor does acceptance, so every archived inactive guide can be accepted and activated
  (`ArchivedCanBeActivated`).
- A healthy report that changed nothing is not remembered, so its replay can resolve a finding opened since
  (`FindingLedgerTheorems.HealthyReplayResolves`; exactly when: `AddsNothingExactly`). And a report of an incomplete read is
  remembered if it observed something, so the same report taken in full later resolves nothing
  (`FullAfterPartialResolvesNothing`).
- The last page of a slice is stored before the slice is stored as done; a crash in between reads the slice again
  (`MetaSync.CrashBeforeDoneReadsAgain`), to the same result.
- When two guides give one cap reference different values, the first is kept, so the effective cap need not be the
  smallest (`GuideOverlapTheorems.ConflictingCapIsNotSmallest`; exactly when it is: `EffectiveCapExactly`). The overlap is
  then held.
- A read-sync schedule never moves again once its fifth worker in a row is lost (`ReadSyncSchedule.FiveLostWorkersStop`;
  exactly when: `StuckExactly`).

## Model

| member | source | states |
|---|---|---|
| CanonicalJsonTheorems.CanonicalTextIsExact | scripts/verify-guide-run-persistence-postgres.ts:17-18 | Two values have the same canonical text exactly when they mean the same: equal up to key order at every depth, undefined fields, and what JSON cannot tell apart. |
| CanonicalJsonTheorems.CanonicalTextIdempotent | src/domain/guides/guide-run.ts:110-116 | Canonicalising an already canonical value gives the same text. |
| CanonicalJsonTheorems.StableKeepsMeaning | src/domain/guides/guide-run.ts:110-115 | Sorting keys at every depth changes no value and loses no field. |
| CanonicalJsonTheorems.OrderedUnique | src/domain/guides/guide-run.ts:110-115 | Two documents with ordered keys that mean the same are identical, so sorting is canonical. |
| CanonicalJsonTheorems.UndefinedFieldDoesNotCount | scripts/verify-guide-run-persistence-postgres.ts:88-90 | A field whose value is undefined does not change the canonical text. |
| JsonTextUnambiguous.PrintUnique | src/domain/guides/guide-run.ts:116-116 | Printed JSON is unambiguous in front of any text that closes it: equal texts come from equal documents, with equal rests. |
| JsonTextUnambiguous.QuoteUnique | src/domain/guides/guide-run.ts:116-116 | Escaped strings are unambiguous: no two strings print alike, lone surrogates and control characters included. |
| KeyedSequences.SortIsCanonical | src/domain/guides/guide-run.ts:109-115 | Two arrangements of the same entries sort to the same sequence, under any strict total order of keys. |
| KeyedSequences.CodeUnitOrderIsStrictTotal | src/domain/guides/guide-run.ts:109-109 | Comparison by UTF-16 code unit is a strict total order on strings. |
| KeyedSequences.CodeUnitBeforeExactly | src/domain/guides/guide-run.ts:109-109 | One text comes before another exactly when, where they first part, it ends or has the smaller code unit. |
| CanonicalTextForm.StableKeysRise | src/domain/guides/guide-run.ts:110-115 | After sorting, the keys of every object at every depth rise: array indices first, by value, then the others by their first difference. |
| CanonicalTextForm.ArrayIndexExactly | src/domain/guides/guide-run.ts:110-115 | An array index is the decimal text of a whole number below 4294967295 and nothing else. |
| CanonicalTextForm.NumericBeforeExactly | src/domain/guides/guide-run.ts:110-115 | Array indices compare as the numbers they are. |
| CanonicalTextForm.QuoteIsQuoted | src/domain/guides/guide-run.ts:116-116 | A string prints between quotes unit by unit, with the seven short escapes, four lower-case hexadecimal digits for other control characters and lone surrogates, and everything else as it is. |
| CanonicalTextForm.IntegerText | src/domain/guides/guide-run.ts:116-116 | A whole number prints as its digits without leading zeros, after a minus sign if it is negative. |
| CanonicalTextForm.WithoutWords | src/domain/guides/guide-run.ts:116-116 | What JSON has no words for is null in arrays and left out of objects, and negative zero prints as zero. |
| CanonicalTextForm.PrintIsText | src/domain/guides/guide-run.ts:116-116 | A document prints as the compact text composed of the texts of its parts. |
| CanonicalTextForm.CanonicalTextIsComposed | scripts/verify-guide-run-persistence-postgres.ts:17-18 | The canonical text is the composed text of the value with rising keys. |
| Savepoints.RunRefinesNested | scripts/verify-guide-budget-contract-v2-postgres.ts:72-89 | For any program of nested and consecutive helpers whose names are not reused inside themselves, the savepoint stack gives the data, the failures and the reported flags of plain nested transactions, and keeps every older savepoint. |
| Savepoints.RejectionRestores | scripts/verify-data-health-ledger-postgres.ts:41-45 | After an expected rejection the transaction is usable and rows and settings are those on entry. |
| Savepoints.ProbeLeavesNoTrace | scripts/verify-guide-budget-contract-v2-postgres.ts:732-744 | A step under a changed `session_replication_role` leaves rows, settings and savepoints as they were, whatever it does. |
| Savepoints.OlderSavepointStillRestores | scripts/verify-naming-template-postgres.ts:21-26 | An older savepoint still restores its own snapshot after helpers that leave savepoints unreleased. |
| Savepoints.ReusedNameExactly | scripts/verify-budget-ceiling-policies-postgres.ts:31-33 | Whatever freshly nested step uses its name again, at any depth and with any work after that, a helper ends like a nested transaction except for the data, which differ exactly when it rolls back and the newest savepoint of its name left by the step was taken with other data than on entry. |
| Savepoints.ReusedNameLosesRollback | scripts/verify-data-health-ledger-postgres.ts:41-45 | A nesting in which a row written before the inner helper survives the outer rejection. |
| Savepoints.FinishRefines | scripts/verify-guide-lifecycle-postgres.ts:25-37 | Each helper's ending, success or failure, does to the stack what the end of a nested transaction does to the data. |
| Savepoints.StatementsTold | scripts/verify-guide-lifecycle-postgres.ts:25-37 | What setting, rolling back to and releasing a savepoint and any other statement do, in a usable and in an aborted transaction. |
| Savepoints.Transaction.Perform | scripts/verify-guide-lifecycle-postgres.ts:25-52 | Running a program statement by statement on the mutable transaction gives the specified state, exception and flags. |
| Savepoints.Transaction.Verify | scripts/verify-guide-budget-contract-v2-postgres.ts:959-959 | A verifier that performs any program and then rolls back, however the program ends, leaves the committed data as they were, which only a commit changes, and reports what the program reported. |
| GuideRunTheorems.VerifierIsExact | src/domain/guides/guide-run.ts:353-426 | A run can be built by creating and appending exactly when it verifies, its first event has no reason, and it does not start before its slot. |
| GuideRunTheorems.AppendVerifies | src/domain/guides/guide-run.ts:254-326 | Every successful append keeps the run verified. |
| GuideRunTheorems.AppendReplays | src/domain/guides/guide-run.ts:254-326 | Appending the last event's own data to the run before it gives back the run. |
| GuideRunTheorems.VerifierAcceptsUncleanGenesis | src/domain/guides/guide-run.ts:353-426 | A run that verifies although its first event carries a reason. |
| GuideRunTheorems.VerifierAcceptsEarlyStart | src/domain/guides/guide-run.ts:353-426 | Every scheduled run that starts before its slot verifies, although it cannot be created. |
| GuideRunTheorems.HashFixesHistory | src/domain/guides/guide-run.ts:345-351 | Two verified runs with one head hash are equal, event by event. |
| GuideRuns.Verify | src/domain/guides/guide-run.ts:353-426 | The verifier's single pass decides the specification, which is recursive on the history. |
| GuideRunTheorems.EpochsCountGrants | src/domain/guides/guide-run.ts:254-326 | Every claim, renewal and reclaim raises the epoch by one, and the current lease is the last one granted. |
| GuideRunTheorems.CompareAndSetAddsOneEvent | src/connectors/guides/guide-run-drizzle-repository.ts:70-81 | A successful compare-and-set, which replaces the whole stored run, only adds one event to the stored history. |
| GuideRunTheorems.AtMostOneWinner | scripts/verify-guide-run-persistence-post.ts:52-67 | Of all candidates that any workers ever submit on one head, in any interleaving, at most one wins. |
| GuideRunTheorems.HandleAllKeeps | src/connectors/guides/guide-run-drizzle-repository.ts:53-86 | Whatever is requested, every stored run verifies and every stored history is only extended. |
| GuideRunTheorems.FenceIsForTheLastGrant | src/connectors/guides/guide-run-drizzle-repository.ts:82-86 | A fence can succeed exactly for the token and epoch of the last lease granted, while the run holds a lease. |
| GuideRunTheorems.OneHolderPerEpoch | scripts/verify-guide-run-persistence-postgres.ts:57-73 | Two successful fences of one epoch, however far apart, are by one token. |
| GuideRunTheorems.EarlierEpochNeverFences | scripts/verify-guide-run-persistence-postgres.ts:57-73 | Once a further lease is granted, no token ever fences with an earlier epoch. |
| GuideRunTheorems.EarlierTokenNeedsANewGrant | scripts/verify-guide-run-persistence-postgres.ts:57-73 | After another token has taken over, an earlier token fences only after being granted a lease again, under a later epoch. |
| GuideRunTheorems.EarlierTokenCanReturn | src/domain/guides/guide-run.ts:254-326 | For every run that allows takeover, an earlier token can take it back once the other token has expired. |
| GuideRunRepository.Repository.InsertIfAbsent | src/connectors/guides/guide-run-drizzle-repository.ts:53-69 | Inserting returns the stored run if there is one, and keeps all histories. |
| GuideRunRepository.Repository.CompareAndSet | src/connectors/guides/guide-run-drizzle-repository.ts:70-81 | The stored runs change only in this run, by one event, and only on success. |
| GuideRunRepository.Repository.Fence | src/connectors/guides/guide-run-drizzle-repository.ts:82-86 | A fence answers by head, token, epoch and expiry, and changes nothing. |
| GuideRunRules.AllowedExactly | src/domain/guides/guide-run.ts:238-263 | A step goes one stage further, renews in place where the version allows, fails a run that has not ended, or misses a due one; nothing else. |
| GuideRunRules.HistoryFollowsPath | src/domain/guides/guide-run.ts:353-426 | Every verified history starts as due and makes only such steps, to the state of the run. |
| GuideRunRules.CompletedPassedEveryStage | src/domain/guides/guide-run.ts:238-248 | A completed run has been claimed, frozen, analysed, recorded, and held, staged or without action. |
| GuideRunRules.AppendExactly | src/domain/guides/guide-run.ts:254-326 | An append succeeds exactly at the head, along the path, in time, and for a good grant or the holder of an unexpired lease. |
| GuideRunRules.LeaseAfterStep | src/domain/guides/guide-run.ts:274-316 | A completed, failed or missed run has no lease; a claim, renewal or reclaim leaves the lease asked for under the next epoch; any other step leaves the lease as it is. |
| GuideRunRules.EventOfStep | src/domain/guides/guide-run.ts:317-326 | The one event that a step adds carries what was asked for and the lease used or granted. |
| GuideRunRules.EndedRunIsFinal | src/connectors/guides/guide-run-drizzle-repository.ts:70-86 | Whatever is requested, a completed, failed or missed run never changes again and no fence on it succeeds. |
| GuideRunRules.FenceAnswersExactly | src/connectors/guides/guide-run-drizzle-repository.ts:82-86 | A fence answers with the run exactly for the stored head and the lease's own token and epoch, before the lease expires. |
| GuideRunRules.AppendedRunWins | src/connectors/guides/guide-run-drizzle-repository.ts:70-81 | What an append makes of a stored run can be stored on its head. |
| GuideRunRules.CreatedRunIsStored | src/connectors/guides/guide-run-drizzle-repository.ts:53-69 | A created run is stored unless there is one, which is then returned. |
| GuideRunRules.StoredRunsStartClean | src/connectors/guides/guide-run-drizzle-repository.ts:53-69 | Every stored run starts with an event without a reason. |
| GuideRunRules.TokenExactly | src/domain/guides/guide-run.ts:102-102 | A token is a lower-case UUID of version 1 to 8 and its variant. |
| GuideRunRules.ReasonExactly | src/domain/guides/guide-run.ts:103-103 | A reason is 1 to 128 letters, digits, underscores, colons and hyphens, starting with a letter or digit. |
| GuideRunRules.InstantExactly | src/domain/guides/guide-run.ts:130-136 | An instant can be stored exactly if it lies in one of the years 100 to 9998. |
| HashChain.HeadFixesChain | src/domain/decisions/ledger.ts:147-194 | For two chains in which equal record hashes mean equal meaning, position and predecessor, an equal last hash makes the whole chains equal. |
| DecisionLedgerTheorems.HeadFixesLedger | src/domain/decisions/ledger.ts:147-194 | Two verified ledgers that end in one hash have the same records, up to key order, unless a record of one and a record of the other are a collision of the digest. |
| DecisionLedgerTheorems.DeployedHeadFixesLedger | src/domain/decisions/ledger.ts:147-194 | The same for the ledger with the application's own checks of every field. |
| DecisionLedgerTheorems.HashFixesRecord | src/domain/decisions/ledger.ts:125-145 | Equal record hashes mean equal records, the reference included, or the two signed texts are a collision of the digest. |
| DecisionLedgerTheorems.IdentifiedPasses | scripts/verify-decision-ledger-postgres.ts:72-87 | A body with the identity computed for it passes the ledger's identity check, and gives back the body. |
| DecisionLedger.Verify | src/domain/decisions/ledger.ts:147-194 | The verifier's single pass decides whether each record is in order after the one before. |
| DecisionLedgerTheorems.AppendKeeps | src/connectors/decisions/decision-ledger-drizzle-repository.ts:143-250 | An append either adds the candidate at the end or changes nothing, and the ledger stays verified, with unique references, one workspace, and every decision after its analysis. |
| DecisionLedgerTheorems.ReplayUnchanged | scripts/verify-decision-ledger-postgres.ts:147-148 | However many appends follow, sending a stored record again is answered "unchanged" and changes nothing. |
| DecisionLedgerTheorems.ReplayExactly | src/connectors/decisions/decision-ledger-drizzle-repository.ts:226-250 | A candidate with a stored reference is unchanged exactly when its raw text is the stored one, and a conflict otherwise. |
| DecisionLedgerTheorems.ReorderedReplayConflicts | src/connectors/decisions/decision-ledger-drizzle-repository.ts:139-141 | The same record with two keys swapped means the same but is a conflict. |
| DecisionLedgerTheorems.StaleHeadRefused | scripts/verify-decision-ledger-postgres.ts:161-165 | A record made to continue another ledger state is refused, at every state with another length or head. |
| DecisionLedgerTheorems.OutOfTimeRefused | scripts/verify-decision-ledger-postgres.ts:138-146 | In a sound ledger a decision dated before its analysis is refused without effect, whatever else it holds; the answer is the temporal conflict exactly when the reference is new, the workspace is that of the ledger and the chain would verify. |
| DecisionLedgerRepository.Repository.Append | src/connectors/decisions/decision-ledger-drizzle-repository.ts:143-250 | The answer and the new rows of an append, error by error, with soundness kept. |
| DecisionLedgerRules.InsertedExactly | src/connectors/decisions/decision-ledger-drizzle-repository.ts:149-250 | A record is inserted exactly if it is new, of the workspace, continues the chain, and its context or analysis is there and no later. |
| DecisionLedgerRules.RefusedExactly | src/connectors/decisions/decision-ledger-drizzle-repository.ts:149-250 | Every refusal of a new record, in order: workspace, chain, missing context, missing analysis, time. |
| DecisionLedgerRules.RecordHashTold | src/domain/decisions/ledger.ts:125-145 | The hash of a record is the digest of the canonical text of everything in it but the hash. |
| DecisionLedgerRules.RecordIdTold | src/domain/decisions/ledger.ts:125-145 | The reference of a record is its type and the first twenty digits of the digest of the rest. |
| DecisionLedgerRules.PlaceTold | src/domain/decisions/ledger.ts:151-157 | A record names its place, the hash before it and when it happened. |
| DecisionLedgerRules.ColumnsTold | src/connectors/decisions/decision-ledger-drizzle-repository.ts:187-206 | The columns of a row are what the record says. |
| DecisionLedgerFormats.ContentExactly | src/domain/decisions/ledger.ts:151-188 | The deployed checks pass exactly for analyses and decisions with these keys, words and lists, without authority. |
| DecisionLedgerFormats.RefListExactly | src/domain/decisions/ledger.ts:170-171 | A list of references is a list of trimmed, non-empty texts in strictly rising order. |
| DecisionLedgerFormats.OnlyTextsAreRefLists | src/domain/decisions/ledger.ts:170-171 | Nothing but a list of texts is a list of references. |
| DecisionLedgerFormats.EncodableExactly | src/domain/decisions/ledger.ts:84-102 | A value can be encoded exactly if nothing in it, at any depth, is undefined or a number that is not finite. |
| DecisionLedgerRules.NoAuthority | src/domain/decisions/ledger.ts:167-188 | However records come into the deployed ledger, no analysis may act and no decision may execute. |
| DecisionSchedules.TickConsumedOnce | scripts/verify-decision-room-persistence-postgres.ts:463-487 | However many workers tick one slot of a revision, and whatever is saved in between, at most one advances. |
| DecisionSchedules.OldRevisionNeverTicks | scripts/verify-decision-room-persistence-postgres.ts:489-510 | A tick that carries a superseded revision changes nothing at any later time. |
| DecisionSchedules.DueTickAdvances | src/connectors/decisions/decision-room-drizzle-adapters.ts:507-542 | A due row has not consumed its due time: an unhindered tick moves the cursor to it. |
| DecisionSchedules.HandleAllKeeps | src/connectors/decisions/decision-room-drizzle-adapters.ts:394-449 | Over all edits and ticks: revisions rise, exactly the newest is live, superseded rows are frozen and never due, cursors never move back. |
| DecisionScheduleRules.SaveExactly | src/connectors/decisions/decision-room-drizzle-adapters.ts:394-449 | Saving another definition adds the next revision, live and due as given, and retires the current one; nothing else changes. |
| DecisionScheduleRules.TickExactly | src/connectors/decisions/decision-room-drizzle-adapters.ts:507-542 | A tick advances exactly for the current revision before the slot, and moves only its cursor and due time. |
| DecisionRunTheorems.OneLiveRunPerScope | src/connectors/decisions/decision-room-drizzle-adapters.ts:264-312 | For any interleaving of executors with any clocks, at the latest time used no two runs of one campaign hold a live lease. |
| DecisionRunTheorems.OtherScopeOverlaps | src/connectors/decisions/decision-room-drizzle-adapters.ts:267-312 | A run of three claims, the last naming another scope than the stored one, that leaves two live leases in one scope. |
| DecisionRunTheorems.SafeExactlyForStoredScope | src/connectors/decisions/decision-room-drizzle-adapters.ts:264-312 | A claim on a free stored run, manual or scheduled, keeps scopes exclusive in every store exactly when it names the stored scope. |
| DecisionRunTheorems.StoredScopesStayExclusive | src/connectors/decisions/decision-room-drizzle-adapters.ts:264-312 | Over any run whose claims name the stored scopes, no scope ever has two live runs. |
| DecisionRunTheorems.KeyNamesOneRun | src/connectors/decisions/decision-room-drizzle-adapters.ts:254-312 | Every answer to every claim on a key carries the same run reference. |
| DecisionRunTheorems.CompletedOnce | scripts/verify-decision-room-persistence-postgres.ts:290-299 | A key is completed at most once over any run. |
| DecisionRunTheorems.CompletedIsAbsorbing | src/connectors/decisions/decision-room-drizzle-adapters.ts:254-263 | At any later time a claim on a completed key gets the stored completion and changes nothing. |
| DecisionRunTheorems.AttemptsAreCounted | src/connectors/decisions/decision-room-drizzle-adapters.ts:284-312 | The attempt is the number of leases granted, which is failures plus takeovers plus one while not failed. |
| DecisionRunTheorems.AttemptIsOnePlusFailures | scripts/verify-decision-room-persistence-postgres.ts:282-293 | The attempt is one plus the failures exactly when no expired lease was taken over. |
| DecisionRunTheorems.StaleTokenIsPowerless | scripts/verify-decision-room-persistence-postgres.ts:279-282 | A token that does not hold a run now never holds it again. |
| DecisionRunTheorems.LeaseEndsOnce | src/connectors/decisions/decision-room-drizzle-adapters.ts:315-355 | Over any run a lease is ended at most once under its token, completions and failures together. |
| DecisionRunRules.FirstClaimNeedsLiveRevision | src/connectors/decisions/decision-room-drizzle-adapters.ts:229-243 | A first scheduled claim starts a run only of a live and enabled revision of its definition with its account, campaign, timeframe and template; otherwise it is a schedule conflict without effect. |
| DecisionRunRules.RetryKeepsItsRevision | src/connectors/decisions/decision-room-drizzle-adapters.ts:229-243 | A retry is bound to the revision stored with its run, live or not, and keeps it. |
| DecisionRunRules.ClaimAnswers | src/connectors/decisions/decision-room-drizzle-adapters.ts:166-313 | Every answer to a claim, refusal by refusal, told from the stored runs and the registry. |
| DecisionRunRules.ClaimChanges | src/connectors/decisions/decision-room-drizzle-adapters.ts:284-312 | A granted claim uses up one token and changes the run of its key only, to a lease until the claimed time. |
| DecisionRunRules.EndingExactly | src/connectors/decisions/decision-room-drizzle-adapters.ts:315-355 | A run is completed or failed exactly by the token that it is held by, and only its state changes. |
| DecisionRoom.LosingWorkerChangesNothing | scripts/verify-decision-room-persistence-postgres.ts:463-487 | After one worker is done with a fire, whether it executed the run or found it executed, any worker with the same candidate changes nothing and is told of a tick conflict (unless its own planning fails), whatever others do between the turns and between any two calls of either. |
| DecisionRoom.CallsAfterChangeNothing | scripts/verify-decision-room-persistence-postgres.ts:463-487 | Once a fire is executed and ticked, every single call for it changes nothing: a claim finds it completed, no token ends it, no tick advances. |
| DecisionRoom.WinnerEnds | src/application/decision-room-schedule-worker.ts:117-166 | A worker that ends its turn as done leaves the fire executed and ticked, however its calls are spaced and whatever others do in between. |
| DecisionRoom.SlotTickedByOneTurn | src/application/decision-room-schedule-worker.ts:117-166 | One slot of a revision is ticked by at most one turn, by a run or by a stale skip, whatever others do in between. |
| DecisionRoom.StaleSkipMovesOn | src/application/decision-room-schedule-worker.ts:129-141 | A stale candidate is skipped without a run: the cursor moves to its due time and nothing else changes. |
| DecisionRoom.EditBeforeTick | scripts/verify-decision-room-persistence-postgres.ts:489-510 | An edit between a run and its tick leaves the registry to the edit. |
| DecisionRoom.Room.TakeTurn | src/application/decision-room-schedule-worker.ts:117-166 | A worker's turn: definition check, plan, claim, finish and tick, each call its own transaction with anything by others in between, with the outcome for every answer, a stale slot's skip included. |
| DecisionRoomRules.DueFireRuns | src/application/decision-room-schedule-worker.ts:117-166 | A due fire that nothing stands against is run with the schedule's own account, campaign, timeframe and template, and the cursor is at the slot; if the analysis fails, the run is failed and the cursor stays. |
| DecisionRoomRules.TurnAnswers | src/application/decision-room-schedule-worker.ts:117-166 | Every turn and its outcome, for each answer that its calls get. |
| DecisionRoomRules.CallsAreForTheCandidate | src/application/decision-room-schedule-worker.ts:134-163 | The claim and the tick of a turn name the candidate's own schedule, revision and target. |
| DecisionRoom.Room.ClaimRun | src/connectors/decisions/decision-room-drizzle-adapters.ts:166-313 | The answer and new rows of a claim, retries on a superseded revision included; references and completed runs are kept. |
| DecisionRoom.Room.Save | src/connectors/decisions/decision-room-drizzle-adapters.ts:394-449 | Saving an unchanged definition does nothing; another supersedes the current revision and adds the next. |
| DecisionRoom.Room.RecordTick | src/connectors/decisions/decision-room-drizzle-adapters.ts:507-542 | The answer and new cursor of a tick, with the registry's order kept. |
| EnvironmentFile.Parse | scripts/configure-local-session.ts:44-53 | The parser's pass decides readability (every line valid, no key twice) and yields the map of all assignments. |
| EnvironmentFileTheorems.NextAssignments | scripts/configure-local-session.ts:84-91 | The written file assigns the old unmanaged keys in their order and then the managed values. |
| EnvironmentFileTheorems.MergeAgrees | scripts/configure-local-session.ts:84-91 | The written file can be read, as the old map without the managed keys together with the managed values. |
| EnvironmentFileTheorems.OtherLinesStay | scripts/configure-local-session.ts:84-91 | All other lines, comments included, stay in order; at most a carriage return at a line's end and trailing empty lines are lost. |
| EnvironmentFileTheorems.ReapplyKeepsAssignments | scripts/configure-local-session.ts:84-91 | Writing the same values again changes no assignment and no order. |
| Base64.RoundTrip | scripts/configure-local-session.ts:55-59 | Decoding an encoding gives the bytes back, for every length. |
| LocalSession.ValidExactlyCanonical | scripts/configure-local-session.ts:55-59 | For any decoder that reads canonical text right, however lenient, exactly the canonical encodings of 32 bytes pass. |
| Base64.DecoderIsLenient | scripts/configure-local-session.ts:57-57 | Unpadded text and stray characters decode like the canonical text, so the re-encoding test is needed. |
| LocalSession.GeneratedKeySurvives | scripts/configure-local-session.ts:83-91 | A generated key passes the check and its line reads back as it, padding included. |
| LocalSession.WrittenReadsBack | scripts/configure-local-session.ts:65-91 | Whatever the mode, what is written can be read and holds the source's identity, a valid signing key and the old unmanaged values. |
| LocalSession.ReapplyChangesNoValue | scripts/configure-local-session.ts:72-91 | Applying again without rotation succeeds and keeps every assignment, the signing key included. |
| LocalSession.StoredValuesArePlain | scripts/configure-local-session.ts:68-71 | Values that were read contain no line break, so the command's own test for one never fails. |
| LocalSession.Configure | scripts/configure-local-session.ts:61-91 | The command's outcome: failure, preview, or the text written. |
| LocalSession.DeployedIsValid | scripts/configure-local-session.ts:26-35 | The command's own keys and header meet what the theorems ask of them. |
| LocalSessionRules.SigningKeyExactly | scripts/configure-local-session.ts:55-59 | A signing key passes exactly if it is the encoding of 32 bytes. |
| LocalSessionRules.AlphabetIs | scripts/configure-local-session.ts:58-58 | The encoder writes capital letters, small letters, digits, plus and slash for the 64 values, and fills with equals signs. |
| LocalSessionRules.DecoderReads | scripts/configure-local-session.ts:57-57 | The decoder reads that alphabet and the one with hyphen and underscore, and nothing else. |
| LocalSessionRules.WholeGroup | scripts/configure-local-session.ts:82-82 | Three bytes are written as the four values that make the same number of 24 bits. |
| LocalSessionRules.ShortGroups | scripts/configure-local-session.ts:82-82 | A short group is written as if zero bits followed, with a sign for each missing value. |
| LocalSessionRules.LinesExactly | scripts/configure-local-session.ts:46-46 | A text is split at its line feeds, with a carriage return before them, and nowhere else. |
| LocalSessionRules.ReadExactly | scripts/configure-local-session.ts:47-51 | A line is ignored if it is empty or a comment, and is otherwise read exactly as a name, an equals sign and a value on one line. |
| LocalSessionRules.WrittenLines | scripts/configure-local-session.ts:83-91 | The written file is, line by line, the kept lines, an empty line, the header, and one line per managed value. |
| LocalSessionRules.RetainedExactly | scripts/configure-local-session.ts:83-86 | Exactly the lines that assign no managed key are kept. |
| LocalSessionRules.OutcomeExactly | scripts/configure-local-session.ts:61-78 | The command fails exactly without readable files, an identity, or a stored key it can keep, and writes only if told to. |
| LocalSessionRules.AppliedValues | scripts/configure-local-session.ts:80-91 | Applying writes the identity of the source, a new signing key if rotating or none is stored and else the stored one, and leaves all other values. |
| LineFraming.ChunkInsensitive | scripts/verify-guidance-agent-mcp-live.ts:15-18 | Two ways of cutting a stream end in the same state with the same unconsumed text. |
| LineFraming.StreamIsItsLines | scripts/verify-guidance-agent-mcp-live.ts:15-18 | Exactly the complete non-empty lines of the stream have been handled, in order, until the result. |
| LineFraming.DrainSettles | scripts/verify-guidance-agent-mcp-live.ts:17-18 | After the loop no complete line waits in the buffer unless there is a result. |
| LineFraming.IndexOfExactly | scripts/verify-guidance-agent-mcp-live.ts:16-16 | A line ends at the first line feed. |
| AgentClient.Client.OnData | scripts/verify-guidance-agent-mcp-live.ts:15-65 | The loop over the buffer ends and computes the specified state. |
| AgentClientTheorems.ResultIsFinal | scripts/verify-guidance-agent-mcp-live.ts:10-13 | Once set, the result never changes and nothing more is sent or kept, whatever arrives, timeout included. |
| AgentClientTheorems.SentAsOftenAsAnswered | scripts/verify-guidance-agent-mcp-live.ts:21-52 | Each further request is sent exactly as often as the one before is answered well. |
| AgentClientTheorems.ConversationIsScripted | scripts/verify-guidance-agent-mcp-live.ts:21-67 | Against a server that answers each request once, however the stream is cut and whatever error output and timeouts come in between, the stages run in order and nothing is asked twice. |
| AgentClientTheorems.FourGoodAnswersFinish | scripts/verify-guidance-agent-mcp-live.ts:19-63 | Without a timeout the client finishes exactly when such a server gives four good answers; without error output the result is that of the conversation. |
| AgentClientTheorems.ConversationComesTo | scripts/verify-guidance-agent-mcp-live.ts:19-65 | For any messages: those before the first deciding one are answered, the preview with the hash and account just listed, and the deciding one alone gives the result, stage by stage. |
| AgentClientTheorems.EndsAsDecided | scripts/verify-guidance-agent-mcp-live.ts:15-65 | However the stream is cut, the client ends as the first deciding message says, and is ok exactly for a preview that can neither write nor authorize and captured the hash listed last, with no error output before. |
| AgentClientTheorems.NoiseIsNeverOk | scripts/verify-guidance-agent-mcp-live.ts:59-63 | After error output before the result, the client never ends as ok. |
| GuideLifecycle.ActiveIsChainedAndAccepted | src/connectors/guides/guide-lifecycle-drizzle-repository.ts:106-131 | In every reachable state the revisions are hash-linked and the active one is among them and accepted. |
| GuideLifecycle.OneMovePerVersion | src/connectors/guides/guide-lifecycle-drizzle-repository.ts:76-139 | Of all requests that expect one version, exactly one moves the head past it, if it is passed. |
| GuideLifecycle.VersionCountsMoves | scripts/verify-guide-lifecycle-postgres.ts:60-83 | Over any requests the version rises by the number of drafts, activations and pauses that succeed; archives, retries and refusals do not move it. |
| GuideLifecycle.ActivationRetryExactly | scripts/verify-guide-lifecycle-postgres.ts:78-81 | A repeated activation, at any later time, is a no-op exactly when it is the same request and the head has not moved since, and refused otherwise. |
| GuideLifecycle.AcceptanceRetryExactly | src/connectors/guides/guide-lifecycle-drizzle-repository.ts:93-104 | A repeated acceptance is a no-op exactly for the same actor and time, at any later time. |
| GuideLifecycle.ArchivedKeepsRevisions | drizzle/20260817143000_canonical_guide_lifecycle.sql:24-24 | An archived guide gets no further revision. |
| GuideLifecycle.ArchivedCanBeActivated | drizzle/20260817143000_canonical_guide_lifecycle.sql:26-27 | Every archived inactive guide, whether or not its latest revision is accepted yet, can be activated by accepting and activating, and stays archived. |
| GuideLifecycle.ActivatesExactly | src/connectors/guides/guide-lifecycle-drizzle-repository.ts:106-131 | An activation succeeds exactly for the accepted latest revision at the expected version and expected active revision, archived or not. |
| GuideLifecycle.LatestFixesRevisions | drizzle/20260817151000_guide_lifecycle_integrity_forward.sql:23-33 | The hash of the latest revision fixes all revisions. |
| GuideLifecycle.GuideHead.ActivateRevision | src/connectors/guides/guide-lifecycle-drizzle-repository.ts:106-131 | The answer and new head of an activation, retries included, with the invariant kept. |
| GuideLifecycle.GuideHead.CreateNextDraft | src/connectors/guides/guide-lifecycle-drizzle-repository.ts:76-91 | The answer and new head of a draft, with the invariant kept. |
| GuideLifecycleRules.DraftsExactly | src/connectors/guides/guide-lifecycle-drizzle-repository.ts:76-91 | A draft succeeds exactly for a revision that follows the latest by number and hash at the expected head of a guide that is not archived, and becomes the latest. |
| GuideLifecycleRules.AcceptsExactly | src/connectors/guides/guide-lifecycle-drizzle-repository.ts:93-104 | An interpretation is accepted exactly if it is the revision's own and no acceptance is stored. |
| GuideLifecycleRules.ActivationChanges | src/connectors/guides/guide-lifecycle-drizzle-repository.ts:106-131 | An activation makes the latest revision the active one and records who, when and after which. |
| GuideLifecycleRules.ActivateAnswers | src/connectors/guides/guide-lifecycle-drizzle-repository.ts:106-131 | Every answer to an activation, retries and refusals in order. |
| GuideLifecycleRules.PausesExactly | src/connectors/guides/guide-lifecycle-drizzle-repository.ts:133-139 | A pause succeeds exactly for the active revision at the expected version and leaves none active. |
| GuideLifecycleRules.ArchivesExactly | src/connectors/guides/guide-lifecycle-drizzle-repository.ts:141-149 | An archive succeeds exactly once, at the expected version, while no revision is active. |
| GuideLifecycleRules.GuideIsFold | src/connectors/guides/guide-lifecycle-drizzle-repository.ts:76-139 | Over any run the revisions are those of the start and those drafted, in order, and the active one is what the last activation or pause left. |
| GuideLifecycleRules.GuideFromStart | src/connectors/guides/guide-lifecycle-drizzle-repository.ts:63-73 | From its creation at version 0, a guide is told by the requests that succeeded. |
| GuideOverlapTheorems.PowerIsMeet | src/domain/guides/effective-guide-overlap.ts:171-269 | Without conflicts an action has at most the power each guide leaves it, and exactly that of some guide. |
| GuideOverlapTheorems.OrderInvariant | src/domain/guides/effective-guide-overlap.ts:183-205 | The same guides in any order resolve to the same overlap, evidence included. |
| GuideOverlapTheorems.AddingGuidesRestricts | src/domain/guides/effective-guide-overlap.ts:171-269 | Adding guides never gives an action more power. |
| GuideOverlapTheorems.DenyAlwaysHolds | scripts/verify-guide-budget-contract-v2-postgres.ts:689-717 | A deny or manual lock in any guide stops the action, conflicts or not. |
| GuideOverlapTheorems.HumanAlwaysAsked | scripts/verify-guide-budget-contract-v2-postgres.ts:645-658 | Where some guide asks for a human, the action is never autonomous. |
| GuideOverlapTheorems.EffectiveCapIsSmallest | src/domain/guides/effective-guide-overlap.ts:249-258 | Unless one reference stands for two caps, held overlaps included, the effective cap is the smallest cap any guide sets, and one of them. |
| GuideOverlapTheorems.ConflictingCapIsNotSmallest | src/domain/guides/effective-guide-overlap.ts:229-238 | With one reference for two caps the first is kept, and the overlap is held. |
| GuideOverlapTheorems.EffectiveCapExactly | src/domain/guides/effective-guide-overlap.ts:229-258 | For all guides the effective cap is the smallest set exactly when some reference is first used for that cap. |
| GuideOverlapTheorems.ClashesExactly | src/domain/guides/effective-guide-overlap.ts:209-215 | The pass notes a conflict exactly when some reference stands for two different things. |
| GuideOverlapTheorems.OtherTargetsDoNotMatter | src/connectors/guides/guide-budget-evidence-drizzle-repository.ts:123-149 | Contracts on other targets and guides that cannot move budgets do not affect a target. |
| GuideOverlap.Collect | src/domain/guides/effective-guide-overlap.ts:209-234 | The pass keeps the first entry of each reference and the references that clash. |
| GuideOverlap.ResolveGuides | src/domain/guides/effective-guide-overlap.ts:171-269 | The resolver with its loops over restrictions, denied actions and caps computes the specified overlap. |
| GuideOverlapRules.ConflictsAre | src/domain/guides/effective-guide-overlap.ts:209-237 | The conflicts are exactly the references that some guide lists as unresolved or that stand for two different restrictions or caps. |
| GuideOverlapRules.HeldExactly | src/domain/guides/effective-guide-overlap.ts:235-247 | The overlap is held exactly when there is such a reference, and then every action has power 0. |
| GuideOverlapRules.ModeIsMostCareful | src/domain/guides/effective-guide-overlap.ts:206-207 | The mode is the most careful one of the guides. |
| GuideOverlapRules.AllowedAre | src/domain/guides/effective-guide-overlap.ts:208-208 | An action is on the allowlist exactly when it is on every guide's. |
| GuideOverlapRules.DeniedAre | src/domain/guides/effective-guide-overlap.ts:209-228 | An action is denied exactly when the first restriction of some reference denies it, locks it, or protects it by denying. |
| GuideOverlapRules.ListsAre | src/domain/guides/effective-guide-overlap.ts:239-247 | Which actions are recommended, left to a human or autonomous, told from the guides as given. |
| GuideOverlapRules.EvidenceIs | src/domain/guides/effective-guide-overlap.ts:203-205 | There is an answer exactly for guides that are there once each; its evidence lists them by reference. |
| GuideOverlapRules.BindingsAre | src/connectors/guides/guide-budget-evidence-drizzle-repository.ts:124-149 | A target has bindings exactly if every guide that can move budgets has a contract, and they are the guides with a contract on it. |
| ContextInvalidationTheorems.LatestValidIsLatest | src/connectors/analyses/effective-campaign-context-drizzle-repository.ts:824-845 | The lookup finds the latest context of the entity that nothing in the whole log matches, or there is none. |
| ContextInvalidationTheorems.InvalidationChangesExactly | scripts/verify-effective-campaign-context-postgres.ts:309-330 | An invalidation changes an entity's answer exactly when it matches the context that was the answer. |
| ContextInvalidationTheorems.OtherEntitiesKeepTheirs | scripts/verify-effective-campaign-context-postgres.ts:316-322 | An invalidation for one entity changes no other entity's answer. |
| ContextInvalidationTheorems.InvalidForEver | src/connectors/analyses/effective-campaign-context-drizzle-repository.ts:624-645 | An invalid context is never found again. |
| ContextInvalidationTheorems.SaveChangesExactly | src/connectors/analyses/effective-campaign-context-drizzle-repository.ts:679-760 | A saved context becomes the answer exactly when it is valid from the start and not captured before the answer so far. |
| ContextInvalidationTheorems.HistoryIsImmutable | scripts/verify-effective-campaign-context-postgres.ts:337-338 | Stored contexts stay as they are. |
| ContextInvalidationTheorems.InvalidationIsIdempotent | scripts/verify-effective-campaign-context-postgres.ts:339-339 | The same invalidation again, at any later time, adds nothing. |
| ContextInvalidationTheorems.AffectedExactly | src/connectors/analyses/effective-campaign-context-drizzle-repository.ts:932-948 | The reported count is the number of stored contexts that the invalidation matches. |
| ContextInvalidation.Repository.LoadLatestValid | src/connectors/analyses/effective-campaign-context-drizzle-repository.ts:824-845 | The loop over candidates computes the lookup. |
| ContextInvalidation.Repository.InvalidateComponent | src/connectors/analyses/effective-campaign-context-drizzle-repository.ts:892-955 | The answer, the count and the new log of an invalidation. |
| ContextInvalidationRules.LookupExactly | src/connectors/analyses/effective-campaign-context-drizzle-repository.ts:824-845 | The lookup answers the latest context of the entity none of whose components is invalidated in its version for the entity or everyone, and none exactly if there is none. |
| ContextInvalidationRules.SavesExactly | src/connectors/analyses/effective-campaign-context-drizzle-repository.ts:679-760 | A context is saved exactly if it binds its registries and neither it nor another of its identity is stored. |
| ContextInvalidationRules.InvalidatesExactly | src/connectors/analyses/effective-campaign-context-drizzle-repository.ts:892-955 | An invalidation is logged once, and reports the number of contexts whose component it names. |
| FindingLedgerTheorems.ReportDecides | src/domain/meta/data-health-observation-lifecycle.ts:39-74 | The step of the fold: a report that is neither a replay nor a conflict opens what it observes, and closes what it covers and does not observe exactly when it is taken to resolve what is absent; other findings are untouched. |
| FindingLedgerTheorems.OpenIsLastWord | src/domain/meta/data-health-observation-lifecycle.ts:39-74 | The fold: over any sequence of reports (complete or not), triage requests and appended events, a finding is open afterwards exactly as the last report with a word on it, or the last event appended for it, says. |
| FindingLedgerTheorems.ConflictsExactly | src/connectors/meta/data-health-finding-development-log-drizzle-repository.ts:103-131 | A report that was not recorded conflicts exactly when it observes a finding that is stored for an account outside the scope of the report, or for another account than the one observed. |
| FindingLedgerTheorems.AddsNothingExactly | scripts/verify-data-health-ledger-postgres.ts:112-120 | A report adds nothing exactly when it recorded something before, or observes nothing while everything that it is to resolve is resolved or absent; a report of an incomplete read, when it was recorded before or observes nothing. |
| FindingLedgerTheorems.RecordedReplayAddsNothing | scripts/verify-data-health-ledger-postgres.ts:119-120 | A report that recorded something adds nothing at any later time, whether or not it is then to resolve what is absent. |
| FindingLedgerTheorems.FullAfterPartialResolvesNothing | src/connectors/meta/data-health-finding-development-log-drizzle-repository.ts:60-76 | A report taken without resolving and then in full resolves nothing; taken in full at once it resolves every open finding that it covers and does not observe. |
| FindingLedgerTheorems.PartialReadingsNeverResolve | src/server/meta-read-sync-runtime.ts:368-377 | Over any run of incomplete reads and triage, no finding is ever resolved. |
| FindingLedgerTheorems.HealthyReplayResolves | src/connectors/meta/data-health-finding-development-log-drizzle-repository.ts:60-65 | A healthy first report, sent again after a finding was opened, resolves it. |
| FindingLedgerTheorems.StaleEventRefused | scripts/verify-data-health-ledger-postgres.ts:144-145 | An event made for a finding that has moved on is refused at any later time without effect. |
| FindingLedgerTheorems.ReappendUnchanged | src/connectors/meta/data-health-finding-development-log-drizzle-repository.ts:103-116 | Appending recorded events again, at any later time, changes nothing. |
| FindingLedgerTheorems.HandleAllKeeps | scripts/verify-data-health-ledger-postgres.ts:123-140 | Findings only move forward, and without triage requests every triage state is kept, through resolving and reopening. |
| FindingLedgerTheorems.ChainsStayValid | drizzle/20260817160000_data_health_finding_development_log_ledger.sql:77-77 | Whatever is requested of an empty ledger, directly appended events included, chains open first, are numbered by ones, and alternate between open and resolved as the guard demands. |
| FindingLedgerTheorems.HistoriesOnlyExtend | src/connectors/meta/data-health-finding-development-log-drizzle-repository.ts:103-147 | Whatever is requested, no event of a finding is lost or replaced. |
| FindingLedger.Repository.PersistEvents | src/connectors/meta/data-health-finding-development-log-drizzle-repository.ts:103-147 | The loop over events stores all of them or, on a conflict, none. |
| FindingLedger.Repository.MaterializeReport | src/connectors/meta/data-health-finding-development-log-drizzle-repository.ts:53-87 | The answer and new ledger of a report, with or without resolving what is absent. |
| FindingLedgerRules.ReportWrites | src/domain/meta/data-health-observation-lifecycle.ts:57-74 | What a report writes on each finding: event kind, sequence, evidence, predecessor, scope, log entry and occurrence; and nothing on the others. |
| FindingLedgerRules.SomeOrder | src/domain/meta/data-health-observation-lifecycle.ts:61-61 | Every reading has an order of the fingerprints that it concerns. |
| FindingLedgerRules.OneEventExactly | src/connectors/meta/data-health-finding-development-log-drizzle-repository.ts:103-131 | An appended event is stored exactly if it is the next of its finding and unrecorded; the same event again changes nothing; anything else is a conflict. |
| FindingLedgerRules.TriagesExactly | drizzle/20260817160000_data_health_finding_development_log_ledger.sql:79-79 | A person may move a log on from proposed over triaged and tasked to settled, skipping what they like, and may take a settled one up again as triaged; nothing else. |
| FindingLedgerRules.TriageIsLastJudgement | src/connectors/meta/data-health-finding-development-log-drizzle-repository.ts:88-101 | Over any run a log is in the state of the last judgement allowed. |
| MetaSync.ResumeEquivalence | scripts/verify-meta-sync-postgres.ts:69-105 | Over any pages, failures, crashes and restarts, a slice stored as done has exactly the records and insights of an uninterrupted read, and no slice holds any other identity. |
| MetaSync.DoneExactly | src/connectors/meta/sync/runtime.ts:159-288 | Over any failures, crashes and restarts, a slice ends stored as done exactly when its pages have been read once, and once more for each crash that lost its end. |
| MetaSync.ReadsAreCounted | src/connectors/meta/sync/runtime.ts:277-288 | The pages read and the pages left make up the slice, once for the run and once for each crash between the last page and the stored end: no other page is read twice. |
| MetaSync.CanBeDone | src/connectors/meta/sync/runtime.ts:159-288 | From every state that is kept, reading the pages that are left completes the slice. |
| MetaSync.SlicesShareOneStore | src/connectors/meta/sync/runtime.ts:260-278 | Storing a page in the one record store is storing it in the ledger of its slice, as slices of a plan differ in account, stream, level or dates. |
| MetaSync.ApplyAgain | src/connectors/meta/sync/runtime.ts:27-32 | Reading everything again over part of the result gives the result. |
| MetaSync.AppliedExactly | src/connectors/meta/sync/runtime.ts:27-32 | Under each identity there is what was stored last, and the identities are those that were there or were stored. |
| MetaSync.CrashBeforeDoneReadsAgain | src/connectors/meta/sync/runtime.ts:277-286 | A crash after the last page and before the slice is stored as done starts the slice again, to the same result. |
| MetaSync.Runtime.ReadPage | src/connectors/meta/sync/runtime.ts:159-283 | One page is stored together with the next cursor, keeping what every interrupted run keeps. |
| MetaSync.Runtime.ProcessSlice | src/connectors/meta/sync/runtime.ts:159-288 | The loop ends; it completes the slice exactly when enough reads succeed, and otherwise stores where it stopped. |
| ReadSyncSchedule.OneLiveLease | scripts/verify-meta-read-sync-schedule-postgres.ts:80-89 | At the latest time any claim has used, at most one lease, automatic or manual, is live. |
| ReadSyncSchedule.OneEndingPerRevision | src/server/meta-read-sync-schedule-drizzle-adapters.ts:309-419 | Each revision that the schedule passes is passed by exactly one automatic fire's completion or final failure. |
| ReadSyncSchedule.HandleAllKeeps | src/server/meta-read-sync-schedule-drizzle-adapters.ts:210-419 | The due time is the initial one plus six hours per revision, attempts stay within five, completed runs never change. |
| ReadSyncSchedule.CompletedFireReplays | scripts/verify-meta-read-sync-schedule-postgres.ts:103-106 | A completed fire is answered as completed at any later time, with its original attempt. |
| ReadSyncSchedule.StaleTokenIsPowerless | scripts/verify-meta-read-sync-schedule-postgres.ts:90-95 | A token that does not hold a fire now never completes or fails it. |
| ReadSyncSchedule.LastAttemptLostStops | src/server/meta-read-sync-schedule-drizzle-adapters.ts:268-270 | Once the fifth attempt is taken, no requests without its token ever move the schedule. |
| ReadSyncSchedule.StuckExactly | src/server/meta-read-sync-schedule-drizzle-adapters.ts:210-419 | In every reachable state and for every issued token, some requests that do not use the token move the schedule exactly when it does not hold the due fire on its fifth attempt. |
| ReadSyncSchedule.FiveLostWorkersStop | src/server/meta-read-sync-schedule-drizzle-adapters.ts:268-270 | Five claims of the first fire, each after the lease before has expired, reach such a state. |
| ReadSyncSchedule.DueFireCanComplete | src/server/meta-read-sync-schedule-drizzle-adapters.ts:210-362 | A due fire with attempts left that has not failed for good is claimed and completed once no lease is live, and the revision rises by one. |
| ReadSyncSchedule.Lease.ClaimFire | src/server/meta-read-sync-schedule-drizzle-adapters.ts:210-307 | The answer and new run of a claim, refusal by refusal. |
| ReadSyncSchedule.Lease.CompleteFire | src/server/meta-read-sync-schedule-drizzle-adapters.ts:309-362 | The answer, new run and new schedule of a completion. |
| ReadSyncRules.ClaimAnswers | src/server/meta-read-sync-schedule-drizzle-adapters.ts:210-307 | Every answer to a claim and the run it leaves, told from the stored runs, the due time and the clock. |
| ReadSyncRules.CompletesExactly | src/server/meta-read-sync-schedule-drizzle-adapters.ts:309-362 | A completion succeeds exactly for the holder while the schedule is there, and an automatic one moves it six hours on. |
| ReadSyncRules.FailsExactly | src/server/meta-read-sync-schedule-drizzle-adapters.ts:364-419 | A failure is recorded exactly for the holder, and moves an automatic fire that will not be tried again six hours on. |
| CauseChain.CausedByConstraint | scripts/verify-decision-room-analysis-assets-postgres.ts:67-76 | On every finite graph of failures, cycles included, the walk ends and answers true exactly when some object along the causes names or mentions the constraint. |
| CauseChain.NamesExactly | scripts/verify-decision-room-analysis-assets-postgres.ts:71-72 | A failure is about the constraint exactly if it carries its name, or its message has the name somewhere in it. |

## Left out

- Numbers with fractions or exponents in canonical JSON: whole numbers, negative zero and non-finite numbers are modelled; the database's own digest refuses the others.
- References cut from a digest (`run_`, `guide_run_event_`, key prefixes) are not modelled as cut, except the ledger's record reference; a clash of cut digests is outside the model.
- The variants that sort keys with `localeCompare`: a locale-dependent order.
- GuideRuns.Append: does not model the formats of references and hashes, size limits of stored JSON, artifacts, schedule receipts, and the joins that require an active guide and workspace.
- DecisionLedger.Judge: does not model `appendSuffix`, which repeats the same per-record checks for one or two records after comparing the stored prefix.
- DecisionLedger.ContentOk: takes the privacy rules for frozen contexts and the authority-escalation scan as one given predicate.
- DecisionRuns.Refusal: does not model the check that the account and campaign exist, nor which of several overlapping runs a suppressed claim names.
- DecisionSchedules.Handle: takes due times as given, because the calendar arithmetic that plans them (time zones, catch-up) is a separate subject; the first-read-wins inbox is left out.
- EnvironmentFile.Lines: text is a sequence of UTF-16 units; decoding the file from UTF-8 is left out, as are file modes, locks and the atomic rename.
- AgentClient.Handle: takes reading a line as a given function from text to message; starting and stopping the server process is left out.
- GuideLifecycle.Handle: one guide at a time, without membership checks, slice and market binding, and the contents of lifecycle events other than activations.
- GuideOverlap.ResolveSorted: does not compute hashes of the result; restrictions of one guide are taken in the order given, since only sets of actions and the smallest cap depend on them. Budget ceilings and usage are left out.
- ContextInvalidation.Handle: takes the evidence checks of a saved context (mirror scope, cadence, policies, diagnostics) as passed; contexts saved at one instant are ordered by insertion.
- DecisionRoom.Turn: takes the plan of a candidate as given; the second definition check, after planning, cannot fail once the first has passed.
- FindingLedger.Materialize: takes the order of fingerprints as given, any order of the right set; bounds on their number, payloads, and the log's own hash chain are left out.
- MetaSync.Step: assumes that a slice's pages do not change between runs; first- and last-seen times, counters of inserted and updated records, page-size adaptation and retry timing are left out. Slices of all streams are one list, worked on in any order.
- ReadSyncSchedule.HandleClaim: the date window of a fire is taken to be determined by its time; disabled schedules and stale lifecycle generations are left out.
- PostgreSQL catalogue checks, row security and grants, live network scripts, and authority flags that are constants.
