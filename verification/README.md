# Operator broadcasting, pilot runs and text tools: a Dafny model

This project models the parts of the operator whose correctness depends on order, crashes or
exact arithmetic, and proves what they keep over every run.

**The transaction broadcaster** (`operator/src/tx-retry.ts`, `operator/src/chain-read-errors.ts`).
The per-address lock is a step system: the code between two `await`s is one atomic step
(`BroadcastLock`). One tracked send-with-retry call is a step machine whose actions are the
answers of the RPC, the wallet and the ledger (`Worker`). Any number of such calls run under one
lock over one ledger, interleaved arbitrarily, in `Broadcaster`; nonce safety (`NonceSafety`),
fee growth (`FeeGrowth`), recovery spacing (`RecoverySpacing`, `RecoveryDelay`) and progress
(`Progress`) are theorems about all runs of that system. `SendLoop` holds the two loops as they
are written and proves them to be runs of the same step machine. `SendDecisions` says what a call
decides at each branch, told from its trace. `Fees` is the ceiling arithmetic, `Errors` the
classification of thrown values, which `ErrorVerdicts` compares with a table of texts and names
both ways, and `Retry` the two generic retry helpers.

**The durable pilot run** (`operator/scripts/run-pilot.ts`, `operator/src/pilot/resume.ts`,
`operator/src/pilot/pipeline.ts`). The disk is state, a crash is a step that keeps only the
disk. `PilotStore` is the manifest with its frozen rows, `PilotSpecs` the attempts of a
configuration, `PilotRun` the solve lanes with the serial grade queue, `PilotPipeline` one
process of it as an object. `PilotDuplicates` makes the one assumption of the run exact, and
`PilotSystem` puts store and runs together; `PilotContent` is about the rows that runs share,
`PilotPlan` says what each kind of start does, and `PilotGrades` what the records say.

**Four stream and text algorithms**: `SkillSplice` and `SkillCheck` (table regions of SKILL.md
and their drift check), `LineFramer` (the restart drill's reader of child output),
`VerdictSearch` (the paged verdict walk), `BoundedRead` (capped reads of evidence files).

## Assumptions that the theorems name

- Nonce safety assumes that callers bring no nonce of their own and that a pending count is
  above every nonce accepted so far (`NonceSafety.HonestCounts`).
- Fee growth assumes ordered EIP-1559 estimates and excludes one case, an EIP-1559 record
  followed by a cheaper legacy price (`Fees.Downgrade`); the exclusion is exact, and the case
  does lose fees (`Fees.DowngradeLosesFees`).
- Recovery spacing assumes that recording a sent recovery in the ledger does not fail. It bounds
  the recorded submission times; the hand-overs themselves can be closer by the time the earlier
  call spends on its fee queries, and every gap the bound allows occurs (`RecoveryDelay`).
- The pilot theorems assume distinct attempt keys, which holds exactly when no instance id and
  no arm name occurs twice (`PilotSpecs.GridKeysDistinct`). The parser of the arms file refuses
  duplicate arm names and names with a colon; two references to one instance id that differ in
  dataset or split are accepted. The assumption is exact: without it an attempt can be paid for
  twice, and a placeholder can replace a grade (`PilotDuplicates`).
- A run looks up frozen rows by instance id, while the store tracks them by a key that joins id,
  dataset and split with bars. `PilotRun` models both outcomes of the look-up, and no theorem
  about it assumes that a row is found. A row can be missing exactly for references with a bar in
  a field (`PilotStore.RowLostIffBar`, `PilotSystem.RowMissedIffBar`), and never for a banked attempt (`PilotRun.BankedHasRow`).

## Where code and documentation differ

- `operator/scripts/run-pilot.ts:735-737` says that a crash before the grade resumes as a
  regrade; that holds from the moment patch and placeholder are both written. A solve that
  returned before that is paid for again.
- `operator/scripts/run-pilot.ts:560-561` writes the manifest first, so a first start that
  crashes between its two writes leaves a store that every later start refuses until it is
  rebuilt with `--force` (`PilotStore.TornStoreRefusesForever`).
- A recovery's recorded submission time is the time its scan started, read before the two fee
  queries (`operator/src/tx-retry.ts:994-1022`), not the time it was sent. Two recoveries of a
  nonce can therefore be sent less than the stale time apart.
- The third delay of the read retry and the throw after its loop
  (`operator/src/chain-read-errors.ts:98-102`) are never reached.

## Model

| member | source | states |
|---|---|---|
| `BroadcastLock.InvStep` | operator/src/tx-retry.ts:464-484 | Every step of every call keeps the queue order, the chaining to the immediate predecessor and the map's entries |
| `BroadcastLock.MutualExclusion` | operator/src/tx-retry.ts:456-487 | In every run at most one callback per lowercased address is running |
| `BroadcastLock.FifoOrder` | operator/src/tx-retry.ts:464-484 | In every run the callbacks of an address start in call order without gaps, however earlier ones ended |
| `BroadcastLock.ExactCleanup` | operator/src/tx-retry.ts:473-483 | In every reachable state an address is in the map exactly while it has an unreleased call, and its entry is its last caller's gate |
| `BroadcastLock.ExactlyOneEnabled` | operator/src/tx-retry.ts:469-475 | A waiting address with nothing running has exactly one call that may start |
| `BroadcastLock.EveryCallFinishes` | operator/src/tx-retry.ts:464-484 | Without further calls every schedule ends after a fixed number of steps, and stops exactly when all calls are released and the map is empty |
| `BroadcastLock.OtherAddressesDoNotInterfere` | operator/src/tx-retry.ts:457-465 | A step at one address changes neither the calls, the map entry nor the enabled steps of another |
| `BroadcastLock.EoaBroadcastLock.Request` | operator/src/tx-retry.ts:465-473 | The synchronous start of a call performs the Request step and keeps the invariant |
| `BroadcastLock.EoaBroadcastLock.TryEnter` | operator/src/tx-retry.ts:474-476 | A callback starts exactly if the awaited gate has settled |
| `BroadcastLock.EoaBroadcastLock.Exit` | operator/src/tx-retry.ts:477-484 | Release and clean-up, whether the callback returned or threw, perform the Exit step |
| `Fees.MaxPresent` | operator/src/tx-retry.ts:669-673 | The greatest value present, and none exactly if none is present |
| `Fees.CeilingIsExact` | operator/src/tx-retry.ts:665-687 | A bump is the least integer that reaches the scaled value |
| `Fees.MergeWellFormed` | operator/src/tx-retry.ts:689-718 | Merging well-formed fees gives well-formed fees: none, legacy, or EIP-1559 with the priority fee at most the max fee |
| `Fees.ResultIsValid` | operator/src/tx-retry.ts:720-787 | For every answer of the fee queries the result is exactly one of none, legacy and EIP-1559, overrides and snapshot agree, and the fee order is kept |
| `Fees.ReplacementIsEnough` | operator/src/tx-retry.ts:689-787 | New fees reach the exact ceiling of 1.15 times both earlier fees if and only if the excluded downgrade does not happen, failed estimates included |
| `Fees.ResultIsExact` | operator/src/tx-retry.ts:743-787 | For every answer of the queries and every earlier submission: which kind results, both ways, and that each fee is the least reaching the attempt's factor of the quote and 1.15 times the earlier fee |
| `Fees.FreshResultIsExact` | operator/src/tx-retry.ts:751-769 | At a fresh nonce: EIP-1559 exactly with a full estimate, legacy exactly with only a gas price, none exactly with neither; the estimate itself at first, and the least amounts reaching (10000 + 1500 k)/10000 of it at attempt k |
| `Fees.DowngradeLosesFees` | operator/src/tx-retry.ts:694-700 | A concrete EIP-1559 record followed by a legacy price that loses fees |
| `Fees.BumpGrows` | operator/src/tx-retry.ts:675-681 | One replacement bump multiplies by at least 11500/10000 and strictly raises positive fees |
| `Worker.StepEffects` | operator/src/tx-retry.ts:928-968 | Every step of the loop sends under the context's nonce, moves that nonce only by a refresh after "nonce too low", and writes only the entry of what was just sent |
| `Worker.SilentAfterHash` | operator/src/tx-retry.ts:1072-1102 | Once the wallet has returned a hash the call sends nothing more and ends with that hash |
| `Worker.AtMostOneHash` | operator/src/tx-retry.ts:1048-1123 | A call makes at most its maximum of sends, only the last may return a hash, and the call ends with exactly that hash |
| `Worker.CallIsFaithful` | operator/src/tx-retry.ts:928-968 | At every step of a call or of its retry loop: nonce sent equals context nonce; each refresh directly follows a recoverable "nonce too low"; each recorded payload entry has exactly the nonce, hash and fees of the send before it |
| `Worker.NonceEffects` | operator/src/tx-retry.ts:922-970 | The nonce of a call without its own is what a pending count said, and stands while payloads go out under it |
| `SendDecisions.FailureDecides` | operator/src/tx-retry.ts:1086-1120 | A failure before a hash that is not recoverable, or that uses up the attempts, ends the loop with that failure and nothing follows; any other leads to the next attempt, through a refresh exactly for "nonce too low" |
| `SendDecisions.ResendsAreJustified` | operator/src/tx-retry.ts:1086-1120 | Every send with a later send was rejected with a recoverable failure, with attempts left |
| `SendDecisions.SendSays` | operator/src/tx-retry.ts:1053-1085 | Every send bids for as many failures as there were, over the unresolved entry at its nonce, carries that bid or the caller's own fees, and is followed by exactly the bookkeeping of the source |
| `SendDecisions.LoopStartsWith` | operator/src/tx-retry.ts:922-970 | A call enters its loop at the first attempt, with the caller's nonce if there is one and otherwise with the pending count just read |
| `Broadcaster.InvStep` | operator/src/tx-retry.ts:891-971 | Every interleaved step keeps lock invariant, loop invariants and the attribution of each send to its call |
| `Broadcaster.OneRunner` | operator/src/tx-retry.ts:895-899 | Two calls inside their locked section have different addresses |
| `Progress.CallEnds` | operator/src/tx-retry.ts:891-1123 | A call takes at most a number of steps fixed by its scan range and its attempts |
| `Progress.SomeCallCanWork` | operator/src/tx-retry.ts:464-484 | While some call is unreleased, some call can take a step, whatever the environment answered so far |
| `Progress.CallsFinish` | operator/src/tx-retry.ts:891-971 | In every interleaving the calls made so far take a bounded number of steps and stop exactly when all are released and the lock's map is empty |
| `NonceSafety.NonceInvStep` | operator/src/tx-retry.ts:891-971 | Every step keeps each running call's pinned nonce above all nonces others of its account got accepted |
| `NonceSafety.NoNonceCollision` | operator/src/tx-retry.ts:546-551 | In every interleaving of any number of calls, payloads that different calls of an account got accepted have different, increasing nonces |
| `NonceSafety.UnlockedCallersCollide` | operator/src/tx-retry.ts:895-898 | A concrete run without the lock in which two callers get the same nonce accepted |
| `FeeGrowth.CurrentStep` | operator/src/tx-retry.ts:934-954 | A recorded submission replaces the unresolved one at its key, and nothing else changes recorded fees |
| `FeeGrowth.FeesAreCurrent` | operator/src/tx-retry.ts:891-1032 | In every state reached from a ledger of priced entries what each call has read from the ledger still stands and its fees outbid the unresolved entry |
| `FeeGrowth.FeesCompound` | operator/src/tx-retry.ts:934-940 | In every interleaving, from any ledger of priced entries and after any earlier run, k submissions recorded at an unresolved key multiply both fees by at least (11500/10000)^k, and positive fees strictly grow |
| `RecoverySpacing.SpacingInvStep` | operator/src/tx-retry.ts:994-1028 | Every step keeps each sent recovery covered by a ledger entry whose recorded submission time is at least the recovery's scan time, or by its own call about to record it |
| `RecoverySpacing.RecordedTimesAreSpaced` | operator/src/tx-retry.ts:994-1022 | In every interleaving the recorded submission times (the scan times) of two recoveries at one nonce lie at least the stale time apart, also when receipts fail |
| `RecoverySpacing.RecoveriesAreSpaced` | operator/src/tx-retry.ts:992-1015 | In every interleaving two recoveries at one nonce are handed to the wallet at least the stale time apart, less the delay of the earlier one between its scan and its hand-over |
| `RecoveryDelay.GapIffBound` | operator/src/tx-retry.ts:992-1015 | Exactly which gaps occur: hand-overs can lie a gap apart, after a delay of the earlier one, if and only if gap and delay are not negative and together reach the stale time |
| `RecoveryDelay.SpacedIffNoDelay` | operator/src/tx-retry.ts:992-1015 | Hand-overs always lie a positive stale time apart if and only if the earlier one was not delayed after its scan |
| `RecoveryDelay.OneMillisecondApart` | operator/src/tx-retry.ts:992-1015 | With the two-minute stale time a run exists whose two recoveries at one nonce are one millisecond apart |
| `SendLoop.NonceLedgerContext.FeeResultForAttempt` | operator/src/tx-retry.ts:934-940 | Bids over the unresolved entry at the context's current nonce |
| `SendLoop.NonceLedgerContext.RecordSubmitted` | operator/src/tx-retry.ts:941-954 | Records at the context's current nonce |
| `SendLoop.PassRuns` | operator/src/tx-retry.ts:1052-1121 | One pass of the loop is a stretch of the step machine's run on the environment's answers |
| `SendLoop.TryOnce` | operator/src/tx-retry.ts:1053-1120 | The loop body's outcome, nonce and ledger for every combination of answers, with pinned nonce and context nonce equal |
| `SendLoop.SendWithRetry` | operator/src/tx-retry.ts:1048-1123 | For every environment the loop ends, with the outcome, nonce and ledger of the one run of the step machine that the answers determine |
| `SendLoop.AwaitReceipt` | operator/src/tx-retry.ts:1027-1028 | A recovery's entry is resolved exactly if receipt and ledger write succeed |
| `SendLoop.ReplaceStuck` | operator/src/tx-retry.ts:1002-1029 | Sends one transaction bidding over the stuck entry, records exactly it, and is a run of the step machine |
| `SendLoop.RecoveryBidIsExact` | operator/src/tx-retry.ts:1002-1013 | Each fee of a recovery is the least that reaches 1.15 times the stuck one and 1.15 times what is quoted now |
| `SendLoop.RecoverStuckNonce` | operator/src/tx-retry.ts:973-1032 | Nothing found exactly if no nonce in [latest, pending) is stale and no ledger read fails; otherwise the scan ends at the lowest such nonce, with the failed read or with one send; only that key changes; and the whole scan is a run of the step machine |
| `Errors.FlattenKeepsText` | operator/src/tx-retry.ts:21-46 | Text in any link of a finite cause chain is a substring of the flattened message |
| `Errors.RejectionIsFinal` | operator/src/tx-retry.ts:52-85 | A rejection marker at any depth and in any letter case makes an error unrecoverable |
| `Errors.InsufficientFundsIsFinal` | operator/src/tx-retry.ts:48-85 | "insufficient funds" at any depth is never retried |
| `Errors.TransientReadsAreRecoverable` | operator/src/chain-read-errors.ts:17-58 | A read error transient by its message and without a Safe name is recoverable if and only if it carries no terminal marker |
| `Errors.CodeAloneIsNotRecoverable` | operator/src/chain-read-errors.ts:18-21 | An error that is transient only by its code is read again but not recoverable for sending |
| `ErrorVerdicts.UnnamedIff` | operator/src/tx-retry.ts:52-236 | Without a Safe name an error is recoverable if and only if nothing rejects it, it has no terminal code, and it holds the stale-nonce token or one of the 31 retry texts |
| `ErrorVerdicts.FencedIsFinal` | operator/src/tx-retry.ts:56-64 | The two fence errors are never recoverable |
| `ErrorVerdicts.InnerRevertIff` | operator/src/tx-retry.ts:70-151 | An inner revert is recoverable if and only if it is not rejected, its decoded reason is not final, and it is RouterNotDelivered, or has no selector and texts that ask for a retry |
| `ErrorVerdicts.RetryTextIsRetried` | operator/src/tx-retry.ts:168-233 | Each retry text at any depth of a cause chain, in any letter case, makes an unnamed, unrejected error recoverable |
| `ErrorVerdicts.StaleTokenIsRetried` | operator/src/tx-retry.ts:162-166 | The stale-nonce token at any depth does the same |
| `ErrorVerdicts.NonceTooLowIsRetried` | operator/src/tx-retry.ts:246-248 | "nonce too low" at any depth and in any letter case is recoverable and asks for a fresh nonce |
| `ErrorVerdicts.RejectionTextIsFinal` | operator/src/tx-retry.ts:66-68 | Each rejection text at any depth is final, whatever the error's name |
| `ErrorVerdicts.TransientIff` | operator/src/chain-read-errors.ts:17-58 | A read error is transient if and only if it has one of three codes or one of nineteen texts |
| `ErrorVerdicts.FlattenIsJoined` | operator/src/tx-retry.ts:21-46 | The flattened message is exactly the texts of the chain, joined by bars |
| `Retry.BudgetIsSum` | operator/src/tx-retry.ts:274-282 | The backoff budget is the sum of the delays plus one jitter bound for each |
| `Retry.DelayDoubles` | operator/src/tx-retry.ts:279-279 | The delay starts at the base, doubles with each attempt, and is cut off at the maximum |
| `Retry.SleptWithin` | operator/src/tx-retry.ts:274-282 | Each sleep is the delay of its attempt plus its jitter, and the total stays strictly below the budget |
| `Retry.RetriedIsUnique` | operator/src/tx-retry.ts:591-603 | The number of calls and the result of a retry loop are determined by what the calls answer |
| `Retry.WithRecoverableRetry` | operator/src/tx-retry.ts:582-605 | At most the maximum of calls, going on only after recoverable errors, ending with the first success or the last error, with exactly one backoff sleep between two calls |
| `Retry.WithTransientReadRetry` | operator/src/chain-read-errors.ts:84-103 | One to three calls by the same rule, never sleeping the third delay |
| `PilotStore.PlanIsCovered` | operator/scripts/run-pilot.ts:518-562 | A start that proceeds has a frozen row for every instance of its configuration, by key and, where no field holds a bar, by id, and extends the rows on disk |
| `PilotPlan.ResumeIsFaithful` | operator/scripts/run-pilot.ts:521-551 | A resume that names no instances proceeds if and only if rows are there and settings agree; it writes nothing and runs the manifest's instances, source and hash on the rows on disk, whatever slate the request holds |
| `PilotPlan.ExtensionIsFaithful` | operator/scripts/run-pilot.ts:533-551 | An explicit slate on a store proceeds if and only if it misses no instance, terms agree and every new reference can be fetched; rows for exactly the new references are added, and written before the manifest |
| `PilotPlan.FirstStartIsFaithful` | operator/scripts/run-pilot.ts:554-562 | A start on an empty store proceeds if and only if every reference can be fetched, and writes the manifest before the rows |
| `PilotStore.StartKeepsInv` | operator/scripts/run-pilot.ts:543-562 | Wherever a start is cut off, the store stays consistent and only grows |
| `PilotStore.CrashConsistent` | operator/scripts/run-pilot.ts:518-562 | Over any history of starts, extensions and crashes a later start refuses or finds every row, by key and, where no field holds a bar, by id; earlier rows stay a prefix |
| `PilotStore.TornStoreRefusesForever` | operator/scripts/run-pilot.ts:534-561 | A store with a manifest and no rows is refused by every later start |
| `PilotStore.RefKeyInjective` | operator/src/pilot/resume.ts:182-184 | A reference without bars in its fields shares its key with no other reference |
| `PilotStore.PlainIsUnambiguous` | operator/src/pilot/resume.ts:182-184 | A key settles the instance id if and only if no field of the reference holds a bar |
| `PilotStore.RowLostIffBar` | operator/scripts/run-pilot.ts:541-551 | For all settings and over all their histories: a start can proceed without a row for the id of a reference in its slate if and only if a field of that reference holds a bar |
| `PilotContent.RunsUseTheSameRow` | operator/scripts/run-pilot.ts:541-653 | Once a run has used a row for an instance, every later run uses the same row, over any starts, extensions and torn writes in between, given bar-free references and no id twice in a slate |
| `PilotContent.RowIsFinalIffInManifest` | operator/scripts/run-pilot.ts:541-551 | The row on disk for a bar-free reference is final if and only if the manifest has the instance; a row left by a torn extension can be replaced |
| `PilotStore.Store.ResolveFrozen` | operator/scripts/run-pilot.ts:496-507 | Rows in order for all references, or nothing if one fetch fails |
| `PilotStore.Store.PrepareDurableRun` | operator/scripts/run-pilot.ts:509-563 | The writes of a start, cut off anywhere, leave exactly the planned store |
| `PilotSpecs.BuildAttemptSpecs` | operator/src/pilot/resume.ts:126-137 | The three loops build the grid of instances, arms and repeats |
| `PilotSpecs.InGrid` | operator/src/pilot/resume.ts:126-137 | The grid holds exactly the combinations |
| `PilotSpecs.GridFrom` | operator/src/pilot/resume.ts:129-135 | Behind the attempts of the instances before it, each instance has those of its arms |
| `PilotSpecs.ArmRowsAt` | operator/src/pilot/resume.ts:130-134 | Behind the attempts of the arms before it, each arm has its repeats in order |
| `PilotSpecs.AttemptKeyInjective` | operator/src/pilot/resume.ts:114-116 | Attempts are told apart by their keys if arm names hold no colon |
| `PilotSpecs.InstanceOfKey` | operator/src/pilot/resume.ts:114-116 | An attempt key names its instance id if the arm name holds no colon |
| `PilotSpecs.GridKeysDistinct` | operator/src/pilot/resume.ts:114-137 | The keys of a configuration are distinct if and only if no instance id and no arm name occurs twice |
| `PilotRun.SelectRunnableAttempts` | operator/src/pilot/resume.ts:270-292 | Selects the runnable attempts in order, up to the limit |
| `PilotRun.FilteredFacts` | operator/src/pilot/resume.ts:278-292 | Selected attempts are runnable ones of the configuration, distinct if those are |
| `PilotGrades.SelectionIff` | operator/src/pilot/resume.ts:270-292 | Selected is exactly every attempt without a record and, on request, every one with a solve error, a grade error, or ungradeable with a patch; or the first of them, as many as allowed |
| `PilotRun.InvStep` | operator/scripts/run-pilot.ts:655-758 | Every step of lanes, queue, start and crash, the missing-row branch included, keeps records, patches, rows, queue and bill consistent |
| `PilotRun.PaidOnce` | operator/scripts/run-pilot.ts:721-748 | Over every history an attempt whose patch and record are on disk is never solved again and keeps its cost and patch |
| `PilotRun.RecordedCostIsPaidCost` | operator/scripts/run-pilot.ts:670-691 | A record with a patch always carries patch and cost of the attempt's last solve |
| `PilotRun.PlaceholderBanks` | operator/scripts/run-pilot.ts:735-743 | The placeholder banks exactly the solve that produced it |
| `PilotRun.ResumeRegrades` | operator/scripts/run-pilot.ts:693-708 | A run that selects a banked attempt queues its saved patch with the recorded cost |
| `PilotGrades.VisitDecides` | operator/scripts/run-pilot.ts:696-708 | An attempt whose grading failed and whose patch is there is queued with patch and cost; any other is solved |
| `PilotRun.BankedHasRow` | operator/scripts/run-pilot.ts:653-667 | An attempt with patch and record on disk has its frozen row, so the missing-row branch never takes it |
| `PilotRun.PlaceholderComesFirst` | operator/scripts/run-pilot.ts:735-744 | In every interleaving a placeholder is only written where the run has written nothing yet |
| `PilotRun.DrainLeavesNoPlaceholder` | operator/scripts/run-pilot.ts:655-758 | After the drain every attempt has a record of this run that is a grade result or a solve error |
| `PilotGrades.GradeIsRecorded` | operator/scripts/run-pilot.ts:676-690 | Grading the head of the queue records exactly that verdict, ungradeable result or error for its attempt, with its cost and patch, and changes no other record |
| `PilotGrades.DrainedRecordsStateTheirGrades` | operator/scripts/run-pilot.ts:655-758 | After the drain each attempt's record states the grade its own job was given in this run, for the patch on disk, or is the solve error of this run |
| `PilotGrades.FailuresAreRecorded` | operator/scripts/run-pilot.ts:621-632 | What the records of a failed solve, a missing row and a pending grade say |
| `PilotDuplicates.PaidAgainIffDuplicate` | operator/scripts/run-pilot.ts:696-744 | A configuration can bank an attempt and then solve it again if and only if two of its attempts have the same key |
| `PilotDuplicates.OverwrittenIffDuplicate` | operator/scripts/run-pilot.ts:735-744 | A placeholder can replace a grade result of its run if and only if two attempts of the configuration have the same key |
| `PilotDuplicates.DuplicateKeysPayTwice` | operator/scripts/run-pilot.ts:715-744 | For any two attempts with one key in any configuration: a run in which the second solve is paid for after the first is banked |
| `PilotDuplicates.DuplicateKeysLoseAGrade` | operator/scripts/run-pilot.ts:670-744 | For any two such attempts: a run in which the second one's placeholder replaces the first one's graded record |
| `PilotDuplicates.GridPaysOnce` | operator/src/pilot/resume.ts:126-137 | Attempts are paid for once and keep their grades if and only if no instance id and no arm name occurs twice |
| `PilotSystem.LaunchIsBegin` | operator/scripts/run-pilot.ts:634-653 | A start that goes through begins a run whose attempts have distinct keys and whose rows include all earlier ones |
| `PilotSystem.SolvesArePaidOnce` | operator/scripts/run-pilot.ts:634-760 | Over every history of starts, slate extensions, torn writes, crashes and runs a banked attempt is never solved again and keeps cost and patch, if no start names an instance id twice |
| `PilotSystem.NoAttemptMissesItsRow` | operator/scripts/run-pilot.ts:662-667 | Over every history whose references hold no bar no attempt is without its frozen row |
| `PilotSystem.RowMissedIffBar` | operator/scripts/run-pilot.ts:653-667 | For all settings with attempts: an attempt of a reference can find no frozen row if and only if a field of the reference holds a bar |
| `PilotPipeline.Pipeline.constructor` | operator/scripts/run-pilot.ts:634-660 | A process starts with the selection from the records on disk |
| `PilotPipeline.Pipeline.ClassifyLane` | operator/scripts/run-pilot.ts:696-708 | The loop queues saved patches, returns the rest in order, and performs the visits of the state machine |
| `PilotPipeline.Pipeline.FailLane` | operator/scripts/run-pilot.ts:663-667 | A lane without a frozen row records a solve error for each of its attempts |
| `PilotPipeline.Pipeline.FinishSolve` | operator/scripts/run-pilot.ts:722-744 | Patch, placeholder and queued grade, as four steps of the state machine |
| `SkillSplice.FirstAtIsIndexOf` | operator/scripts/skill-generate.ts:65-66 | The search finds exactly the first occurrence |
| `SkillSplice.SpliceStable` | operator/scripts/skill-generate.ts:62-77 | Splicing again changes nothing if and only if the start marker comes first and the content lacks the end marker; otherwise the document grows |
| `SkillCheck.MarkersAre` | operator/scripts/skill-generate.ts:63-64 | The four markers, letter by letter |
| `SkillSplice.GenerateReplacesRegions` | operator/scripts/skill-generate.ts:79-82 | Generation replaces the two regions, in either order, and leaves every other character |
| `SkillSplice.GenerateIsIdempotent` | operator/scripts/skill-check.ts:46-73 | Generating twice is generating once, and the drift check accepts what was generated, for disjoint ordered regions and tables without markers |
| `SkillCheck.CheckPassesIff` | operator/scripts/skill-check.ts:65-73 | The drift check accepts a document if and only if each region, found by its first markers, holds exactly its framed table |
| `SkillCheck.GenerateIdempotentIff` | operator/scripts/skill-generate.ts:79-82 | For every document: a successful generation can be repeated without change if and only if, when its second splice starts, the MCP markers are in order and the CLI table stands wholly on one side of the MCP region |
| `LineFramer.LinesAreTheText` | operator/scripts/native-restart-drill.ts:190-194 | Lines and leftover put together are the text |
| `LineFramer.NoNewlineInside` | operator/scripts/native-restart-drill.ts:190-194 | No line and no leftover holds a newline |
| `LineFramer.ChunkingDoesNotMatter` | operator/scripts/native-restart-drill.ts:188-208 | Every way of cutting the output into chunks ends with the outcome, kills and leftover of the fold over its lines |
| `LineFramer.DrillOutcome` | operator/scripts/native-restart-drill.ts:195-206 | For any lines: it throws if and only if some observation does not parse; otherwise the outcome is that of the last deciding line, and there is one kill per boundary line exactly if kills are asked for |
| `LineFramer.Framer.OnLine` | operator/scripts/native-restart-drill.ts:195-206 | The branches on one line |
| `LineFramer.Framer.OnData` | operator/scripts/native-restart-drill.ts:188-208 | The handler's inner loop is one feeding of the framer |
| `VerdictSearch.List` | operator/scripts/distill-run-manifest-live.ts:107-166 | The early-exit walk returns exactly the first `limit` hits of the whole walk, or the error the source throws |
| `VerdictSearch.TakeRow` | operator/scripts/distill-run-manifest-live.ts:138-153 | One row updates hits and seen keys as the definition of hits says |
| `VerdictSearch.TakePage` | operator/scripts/distill-run-manifest-live.ts:138-154 | A page is taken up to the row that makes the hits enough |
| `VerdictSearch.HitsComeInOrder` | operator/scripts/distill-run-manifest-live.ts:138-154 | The hits are exactly the eligible rows with evidence that are first of their key, in stream order |
| `VerdictSearch.EligibleIff` | operator/scripts/distill-run-manifest-live.ts:90-105 | A row counts if and only if test result and verdict agree, it names manifest and instance, and is not held out; its reference copies it with the test result as polarity |
| `VerdictSearch.WalkIsPages` | operator/scripts/distill-run-manifest-live.ts:114-157 | The walk is its pages: each requested with the cursor of the one before, at most fifty, up to an error or a page that names no further one |
| `VerdictSearch.SearchSays` | operator/scripts/distill-run-manifest-live.ts:108-165 | When the caller gets hits, the indexer's failure, or nothing, and how many hits |
| `VerdictSearch.FoundIsClean` | operator/scripts/distill-run-manifest-live.ts:138-154 | No duplicates, nothing held out, evidence for each, at most `limit` |
| `BoundedRead.ReadDescriptor` | operator/scripts/attribution-files.ts:22-53 | For any pattern of short reads: all of the file if it holds no more than reported and fits the cap, otherwise the right error |
| `BoundedRead.ReadRegularFile` | operator/scripts/attribution-files.ts:55-68 | The same for regular files only |
| `BoundedRead.ReadBundle` | operator/scripts/attribution-files.ts:86-117 | The running total never passes the maximum, so the check after each read never fires |
| `BoundedRead.BundleReadIff` | operator/scripts/attribution-files.ts:86-117 | A bundle is read if and only if every entry is a regular file of the run directory that holds no more than it reports, at most a million bytes, and no more than is left; then it is all the contents |
| `BoundedRead.BundleIsWhole` | operator/scripts/attribution-files.ts:87-117 | A bundle holds every file whole and in order, each within its cap and all within the aggregate |

## Left out

- Broadcaster without tracking: sends without an account or without nonce reads, which take neither lock nor ledger (`operator/src/tx-retry.ts:1140`), and recovery called outside the lock.
- The durable venue lock and re-installation of the default lock; the lock theorems are about one lock instance.
- Callbacks that re-enter the lock for their own address, which would wait for themselves.
- `onRetry` callbacks that throw, and entry fields that decide nothing (`logicalTx`, `to`, `value`, `data`).
- Ledger keys are triples with an already lowercased address; their string form is not modelled.
- Times and backoff are whole milliseconds; sleeping inside the send loop takes no modelled time besides the clock's own steps.
- Lowercasing covers ASCII letters; the markers searched for are ASCII, and Unicode case folding is not modelled.
- Errors: cyclic cause chains, and the helper classifiers for underpriced and rate-limited errors, which are sub-lists of the ones modelled.
- The polling helpers for code and balance, whose loops only add easy members.
- Pilot: failed or torn writes of a single file, `--force`, dry runs, reports, arm lookup, legacy manifests without arms, token fields.
- Pilot lanes: attempts of one instance are solved one after another in the source; the model lets them interleave freely, which covers every order of the source. Grade jobs that fail to write their record are failed writes.
- PilotRun.PaidOnce: starts where both patch and record are on disk; a solve that returned before that is paid for again after a crash, as in the source.
- SKILL.md: the text of the two tables, and the listing of differing lines after a failed check.
- Restart drill: spawning, exit handling and decoding of UTF-8; a handler that throws on malformed JSON ends the framer.
- Verdict search: the HTTP request and the fetching of evidence, which are parameters; the key's string form is a triple.
- Bounded reads: parsing of the manifest, path resolution and files changing between two reads; a file is what the reads see. The relabelling of a size error is decided on the error, not on its message text.
