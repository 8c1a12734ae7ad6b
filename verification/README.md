# A verified model of the P-256 public key index

The index accepts WebAuthn P-256 registrations over HTTP, keeps each one as a task until a
consumer has written it to a registry contract, rescues stuck transactions, serves reads through a
cache, and can replay a registry's history into another deployment. Its decisions live in an
I/O-free crate (`p256-registrar`); two shells run them, one on Redis and a queue, one on the tables
of a Durable Object. This project models those decisions and the state they act on in Dafny 4.11
and proves what the service promises about them.

`dafny verify dfyconfig.toml` checks everything.

## How the model is built

* **Programs.** The admission and batch programs are written twice: as the sequential code they are
  (`AdmissionProgram`, `BatchProgram`, against a shell object that answers anything) and as a
  machine that knows what it asks next (`Admissions`, `Submission`). Every run of the code is
  proved to be a run of the machine, so what is proved of all traces of the machine holds of the
  code, and the machine can be stepped one shell operation at a time. `AdmissionHistory` and
  `BatchHistory` say independently what must be asked next, from the log alone, and a log is the
  program's own exactly when every operation in it was due (`Programs` ties the code to it).
* **Store.** `Stores` gives every table operation as a function on values; `Submitter` is the
  object whose methods change its tables statement by statement, proved equal to those functions.
  `StoreViews` says what each operation means to whoever reads the tables at any later time.
* **Pipeline.** `Pipeline` puts any number of admissions in flight, one consumer, the store, the
  FIFO queue, the clock and an append-only chain into one transition system. Each shell operation
  is one atomic step; a failed operation may or may not have taken effect; an admission or the
  consumer may die between any two steps. `PipelineSafety` proves the invariant step by step,
  `PipelineRuns` the theorems over whole runs, `PipelineRequests` that an answer names the write
  that was asked for, `AdmissionRuns` that requests for one write meet, `ConsumerRuns` what becomes
  of a batch, and `FailedWrites` how little Failed says about the chain.
* **Redis.** `RedisRace` is the one place where a transition is not atomic: read, then write, with
  compare-and-swap marks racing it.
* **Fees and rescue.** `Gas` is the fee policy in saturating 256-bit arithmetic, `Rescue` the sweep
  plan. `Wallet` puts worker, chain, ledger, the node's pool and the sweep into one transition
  system in which every read, send and ledger write is a step and any answer or write may be lost;
  `WalletRuns` says exactly when what is pending stays on record, and `Maintenance` is the sweep's
  loop, every execution of which is a run of that system.
* **Reads.** `CacheKeys` and `Lookups` are the read side with its cache, and `LookupOutcomes` what a
  lookup must answer from what it was told. `Visibility` lets lookups and the pipeline take turns on
  one clock, with every task lookup asking the pipeline's own table, and `HiddenTasks` builds the
  runs in which a pending task is not found.
* **Limits, encodings and tools.** `RateLimits`, `Rosters`, `ReadCalls`, `Challenges` and
  `RetryDigests` cover the minute counters, the RPC roster, the read loop over it and the encodings.
  `Replay` is the replay loop against the registry contract, `Refusals` what the contract takes and
  leaves on any target, `Archives` what one deployment's writes do to a target that agrees with it,
  `ReplayOrders` which orders of them agree, and `ReplayTool` the tool itself.

Conventions: keccak is an injective constructor (`Tasks.Digest`; a retry digest is represented by
its preimage). A hex field is its lower-case digits or a text that does not parse. An error message
is the set of texts the classification looks for in it. Clocks, shell answers, node answers, seeds
and other people's steps are inputs. Automatic induction is switched off for every lemma.

## Where the code and its comments differ

The code is what is modelled.

* `p256-index-server/src/store.rs:259-260` says terminal transitions set `admitted`; `mark_failed`
  does not (323-337). The mark is also not monotone in Redis: `RedisRace.MarkIsLostExactly` says when
  it is lost, and `AdmittedMeansEnqueued` what remains true.
* `p256-index-cf/src/submitter.rs:420-432` claims placeholders with INSERT OR IGNORE, so a row that
  has expired but is not yet purged still blocks a claim
  (`Stores.ClaimSucceedsExactlyOnAbsentKeys`, `Stores.ExpiredRowStillRefuses`), and a task that was
  refused a placeholder never gets it later (`PipelineRuns.RefusedPlaceholderIsNeverRegained`). So
  "never invisible" (`p256-registrar/src/lookup.rs:592-594`) has a condition: a pending task is
  found under a key exactly when the key had no row at all just before its admission
  (`Visibility.VisibleExactlyWhenClaimed`); `HiddenTasks.PendingCanBeInvisible` is a run without it.
* `p256-registrar/src/gas.rs:44-47` speaks of roughly six full blocks of headroom. n blocks are
  covered exactly while the base fee, grown n times in full, is at most twice itself plus the tip
  (`Gas.PriceOutlastsExactly`). That makes five certain with a tip of five wei or more. Six hold
  at a tip of at least 2.73 percent of the base fee (`Gas.SixBlocksUnderALargeTip`), and for every tip
  there is a base fee at which they do not (`Gas.SixBlocksAreTooManySomewhere`).
* A cap of zero sends bids that do not replace (`Gas.RaisedExactlyUnderAPositiveCap`).
* The minute counters are fixed windows that open with a request: "limit per minute" can be exceeded
  across a window's end, up to 2 * limit - 1 (`RateLimits.UnderAMinute`, `RateLimits.TheBoundIsMet`).
* The roster reaches every node, and a total outage probes every node, except at the wrap-around of
  the cursor (`Rosters.PickFindsExactly`, `Rosters.OutageVisitsEveryNodeExactly`).
* `p256-registrar/src/lookup.rs:572` multiplies pages without a guard; the page fetched is the page
  asked for exactly while the product fits into 64 bits (`Lookups.EffectiveExactly`,
  `Lookups.FarPageWraps`).
* The five minutes of a fresh cache row count from the moment it was stored, so a value served as
  fresh can be older by the time between its writer's cache read and the store
  (`Lookups.CachedAnswerIsThisOldAtMost`, `Lookups.CachedAnswerCanBeThatOld`).
* `p256-index-server/examples/live_api_probe.rs:617-623` says a refer without a group holds up the
  queue for ever; the retry budget bounds it (`PipelineRuns.NoBatchRetriesForever`).
* A bid clears the replacement rule against whatever may be pending exactly when the row has a
  recorded price (`Wallet.AlwaysReplacesExactlyWhenPriced`).
* A sweep prices each row against the fee it was sent at
  (`p256-index-server/src/maintenance.rs:131-133`), but by its listing: when the transaction is
  evicted and the worker sends again before the bid, a refused bid is recorded over the higher price
  exactly when the new price exceeds the bid's fee (`WalletRuns.ResentUnderASweepExactly`, with a run
  in `WalletRuns.StaleBidSpoils`). Ledger writes are best effort
  (`p256-index-cf/src/submitter.rs:962`), and what a lost answer or row costs is in
  `WalletRuns.LostAcceptanceExactly`, `LostRowExactly` and `LostSendExactly`.
* Three read attempts need not be three nodes (`p256-registrar/src/roster.rs:110-113`): the third goes
  back to the first exactly when, after the first failure, the node before it is the only eligible
  one, and after the second none is (`ReadCalls.DifferentNodesExactly`, `ReadCalls.CallCanTurnBack`).
* The contract checks the lengths of display hints only when it creates a key's file, and keeps the
  first ones it saw (`contracts/src/WebAuthnP256PublicKeyRegistry.sol:570-592`). So the claim that a
  replay works in any order (`p256-replay/src/main.rs:7-10`) has conditions: a row that its own
  deployment took can be refused by the target (`ReplayOrders.ShuffledReplayCanFail`,
  `ReplayOrders.PlainReplayCanFail`), and hints can depend on the order
  (`ReplayOrders.HintsCanDependOnOrder`). `ReplayTool.SeedDoesNotMatterExactly` gives both conditions.
* Failed means that the pipeline gave up, not that the write is absent
  (`FailedWrites.FailedMayStillLand`).

## Model

| member | source | states |
|---|---|---|
| `PipelineRuns.ReachableOk` | p256-index-cf/src/submitter.rs:171-215 | the pipeline invariant holds in every state of every run, over all interleavings, failures and crashes |
| `PipelineRequests.NoAcceptedWriteIsLost` | p256-registrar/src/admission.rs:340-565 | an answer "queued" names a stored record that has the content hash of the request that came in, or both are registers with one retry digest; at every later time that record is active with an envelope and the same write, or was seen to end, Done only with its write on the chain, and then with the requested write itself if the hash is the requested one |
| `PipelineRequests.ReachableAsked` | p256-registrar/src/admission.rs:340-565 | in every reachable state every request works on a record that answers it, and every retry marker names a register with that digest or a record that is gone |
| `PipelineRequests.AnswersExactly` | p256-registrar/src/admission.rs:313-338 | a record answers a request exactly when it is the same unit or pair or both are registers with one digest, which means the same rpId, metadata and keys; the same unit or pair is on the chain together |
| `PipelineRuns.AcceptedRecordIsKept` | p256-index-cf/src/submitter.rs:734-948 | the record an answer names is there with the status it reports, and later is active with an envelope or was seen to end |
| `PipelineRuns.RowsOnlyMoveForward` | p256-index-cf/src/submitter.rs:436-575 | over any stretch of a run a record keeps its write, never regains a retry, never changes once terminal and never comes back once gone |
| `PipelineRuns.DoneIsOnChain` | p256-registrar/src/submission.rs:244-277 | a task that is Done at any time has its content or reference on the chain then and for ever |
| `PipelineRuns.EnvelopeLeavesOnlyWhenOver` | p256-index-cf/src/submitter.rs:618-628 | a queue entry disappears only when its task is terminal or absent |
| `PipelineRuns.AdvanceMeansOver` | p256-registrar/src/submission.rs:223-278 | when a batch settles as Advance every envelope in it, duplicates and unknown ids included, is terminal or absent |
| `ConsumerRuns.AdvancedBatchIsConsumed` | p256-index-cf/src/submitter.rs:171-215 | from the verdict Advance to the next time the consumer is idle, without a crash and whatever everybody else does, the queue loses exactly the batch, what was behind it is its front in order, and a poll begins with the first of that |
| `ConsumerRuns.AdvanceConsumes` | p256-index-cf/src/submitter.rs:198-204 | every run that ends with the verdict Advance can go on by retiring and deleting the batch envelope by envelope, to an idle consumer and the rest of the queue |
| `ConsumerRuns.RetriedBatchStays` | p256-index-cf/src/submitter.rs:205-215 | a batch that is to be retried stays in the queue, and the next poll begins with it again |
| `ConsumerRuns.PollTakesTheFront` | p256-index-cf/src/submitter.rs:609-616 | a poll takes the oldest envelopes, all or exactly fifty, and asks for their tasks in that order |
| `ConsumerRuns.ConfirmedIsRecorded` | p256-registrar/src/submission.rs:362-388 | the outcome written behind a confirmed receipt leaves the task Done with that transaction hash, with the receipt's id if it names one and the old one otherwise, and without an error, for as long as the record is there |
| `PipelineRuns.OneLiveTaskPerContent` | p256-index-cf/src/submitter.rs:395-434 | in every reachable state two live tasks that have not failed never share a content hash |
| `PipelineRuns.PlaceholderStays` | p256-index-cf/src/submitter.rs:420-432 | the placeholder of an active task stays that task's through everybody's steps until the task itself is seen to end |
| `PipelineRuns.RefusedPlaceholderIsNeverRegained` | p256-index-cf/src/submitter.rs:420-432 | a stored task that does not own a key at one time never owns it later, whatever becomes of the owner, and no later lookup of the key answers with it |
| `PipelineRuns.RetryWithoutOutageIsCharged` | p256-registrar/src/submission.rs:289-478 | a batch that retries although the shell answered everything has persisted an operation about one of its own tasks |
| `PipelineRuns.OneTaskIsChargedAtMostItsBudget` | p256-index-cf/src/submitter.rs:485-511 | in any run the consumer persists at most ten operations about one task |
| `PipelineRuns.NoBatchRetriesForever` | p256-registrar/src/submission.rs:289-478 | over any run the charged retries of any set of tasks are at most ten per task |
| `PipelineRuns.BatchesOfNTasksRetryTenTimesN` | p256-registrar/src/submission.rs:289-478 | in any run the passes over batches of n tasks that end in Retry although the shell answered everything number at most 10 n |
| `FailedWrites.FailedMayStillLand` | p256-registrar/src/submission.rs:362-388 | every run whose queue head is an active task with its write not on the chain can go on, through uncertain receipts, to a state where the task is Failed and its write is on the chain |
| `PipelineSafety.StepOk` | p256-index-cf/src/submitter.rs:734-948 | every step of every party keeps the invariant and guarantees the others that rows only evolve and coverage stays |
| `PipelineSafety.ConsumerStoreEffect` | p256-index-cf/src/submitter.rs:467-525 | whatever the consumer persists touches one row, keeps every table invariant and strictly spends that task's budget |
| `PipelineSafety.AdmissionStepOk` | p256-registrar/src/admission.rs:340-565 | an admission's step, applied or not, truthfully answered, keeps the invariant and leaves active tasks active |
| `PipelineSafety.LoadedWorkOk` | p256-registrar/src/submission.rs:231-251 | after loading, what the batch keeps is active and owed, and what it drops is over |
| `Submission.EverySubmitFollowsAbsence` | p256-registrar/src/submission.rs:252-277 | in every trace a chain write directly follows an "absent" check of the same task |
| `Submission.SecondSubmitOnlyAfterRevert` | p256-registrar/src/submission.rs:362-429 | a task is sent at most twice, the second time two exchanges after a reverted receipt |
| `Submission.EveryOutcomeHasItsCause` | p256-registrar/src/submission.rs:223-478 | each recorded outcome directly follows the exchange that justifies it: Done a positive chain answer, Failed a refusal for good, a retry a failure that may pass |
| `BatchHistory.RunsExactlyWhatIsDue` | p256-registrar/src/submission.rs:203-478 | a log is one of the batch program's exactly when each operation in it is the one due behind the exchanges before it, and what the program asks next or ends with is what is due: checks, sends, the one resend, outcomes and verdicts with their reasons |
| `BatchHistory.RevertedTwiceIsTwice` | p256-registrar/src/submission.rs:390-429 | a task fails as reverted only behind two reverted sends of it with an "absent" answer about it between them |
| `BatchHistory.FirstRevertIsRetried` | p256-registrar/src/submission.rs:362-429 | a first send that reverts is followed by the question about that task, and if it is absent by a second send of it |
| `BatchHistory.CanonicalIsKept` | p256-registrar/src/submission.rs:244-251 | the loading pass keeps exactly the first record of each id that is not terminal, in loading order |
| `ChainErrors.ClassifiesExactly` | p256-registrar/src/protocol.rs:152-231 | the class of every error from the texts in it: duplicate, may pass, for good |
| `Submission.CanonicalIsDistinct` | p256-registrar/src/submission.rs:244-251 | what the loading pass keeps was loaded, is not terminal and is kept once |
| `Submission.CanonicalCovers` | p256-registrar/src/submission.rs:244-251 | no loaded non-terminal task is dropped |
| `BatchProgram.Canonicalize` | p256-registrar/src/submission.rs:244-251 | the filtering loop computes the canonical list |
| `BatchProgram.CheckContent` | p256-registrar/src/submission.rs:289-326 | the reconciliation check follows the machine, including the recorded retry on a failed read |
| `BatchProgram.ClassifyFailure` | p256-registrar/src/submission.rs:433-478 | the classification of a failed write follows the machine on all three classes |
| `BatchProgram.RegisterReverted` | p256-registrar/src/submission.rs:390-429 | the reconcile-and-resend-once path follows the machine |
| `BatchProgram.DriveBatch` | p256-registrar/src/submission.rs:223-278 | for every sequence of shell answers the batch code is a complete run of the machine ending in the returned verdict |
| `Programs.RunBatch` | p256-registrar/src/submission.rs:203-478 | for every sequence of shell answers each operation of the batch code and its verdict are the ones due |
| `Admissions.EveryAdmitPassedTheGates` | p256-registrar/src/admission.rs:340-500 | a write reaches the store only after a granted address budget, an unheld content hash, a queue below its limit and a granted global budget, and a refer only past the group gate |
| `AdmissionHistory.RunsExactlyWhatIsDue` | p256-registrar/src/admission.rs:340-565 | a log is one of the admission program's exactly when each operation in it is the one due behind the exchange before it, and what the program asks next or answers is what is due |
| `AdmissionHistory.EveryRegisterIsLookedUp` | p256-registrar/src/admission.rs:389-425 | a register reaches the store only after its retry digest was looked up, second of its lookups, and led to no task or a failed one |
| `AdmissionRuns.AdmittedRegisterWasLookedUp` | p256-registrar/src/admission.rs:389-425 | in every run a register comes to be admitted only after a lookup at a time when no live marker of its digest led to a live task that had not failed |
| `AdmissionRuns.FoundTaskAnswers` | p256-registrar/src/admission.rs:367-425 | in every run a request whose content or digest lookup leads to a task is over at once if that task is admitted or terminal, and otherwise ends with that task or an outage, never with a write of its own |
| `AdmissionRuns.ResubmissionCoalesces` | p256-registrar/src/admission.rs:313-425 | the same keys again within a day of a written marker, under whatever group key, end with the first task as long as that is there and has not failed |
| `AdmissionRuns.AnsweredMarkIsSet` | p256-index-cf/src/submitter.rs:444-465 | once the mark is answered with the record, a pending record is marked and nothing else of it changed |
| `AdmissionRuns.RepeatAnswersAtOnce` | p256-registrar/src/admission.rs:367-388 | from then on every request with its content hash is answered with the task in the step that looks it up, and nothing is enqueued again, as long as the task is there and has not failed |
| `Admissions.GroupGateOpened` | p256-registrar/src/admission.rs:508-543 | a refer gets past the gate only if the chain has the group, cannot say, or the creating register is in flight |
| `AdmissionProgram.ReferGroupGate` | p256-registrar/src/admission.rs:508-543 | the gate's code follows the machine |
| `AdmissionProgram.EnqueueTask` | p256-registrar/src/admission.rs:548-565 | phase two's code follows the machine |
| `AdmissionProgram.DriveAdmission` | p256-registrar/src/admission.rs:340-500 | for every sequence of shell answers the admission code is a complete run of the machine ending in the returned outcome |
| `Programs.RunAdmission` | p256-registrar/src/admission.rs:340-565 | for every sequence of shell answers each operation of the admission code and its outcome are the ones due |
| `RetryDigests.BuildPreimage` | p256-registrar/src/admission.rs:321-338 | the loop builds the length-prefixed preimage of rpId, metadata and the sorted lower-case member keys |
| `RetryDigests.RetryDigestBinds` | p256-registrar/src/admission.rs:321-338 | two retry digests agree exactly when rpId, metadata and the multiset of lower-case member keys agree |
| `RetryDigests.SortedIsUnique` | p256-registrar/src/admission.rs:322-327 | two sorted lists with the same elements are the same list |
| `RetryDigests.PreimageInjective` | p256-registrar/src/admission.rs:328-337 | the length-prefixed concatenation determines its parts |
| `Stores.ContentIndexIsAFullScan` | p256-index-cf/src/submitter.rs:340-364 | the content index finds a task exactly when a full scan for live, non-failed tasks with that hash does |
| `Stores.ClaimSucceedsExactlyOnAbsentKeys` | p256-index-cf/src/submitter.rs:420-432 | an admission owns a placeholder afterwards exactly when no row, live or expired, held the key |
| `Stores.ExpiredRowStillRefuses` | p256-index-cf/src/submitter.rs:420-432 | an expired, unpurged row keeps its place at an admission: the new task is stored but found under that key neither then nor later, and the purge leaves the key to nobody |
| `Stores.AdmitKeepsOk` | p256-index-cf/src/submitter.rs:395-434 | an admission keeps rows, content index and placeholders consistent |
| `Stores.TerminateKeepsOk` | p256-index-cf/src/submitter.rs:529-575 | a terminal transition keeps them consistent: failed drops the task's index rows, done lets them expire with it |
| `Stores.PurgeKeepsOk` | p256-index-cf/src/submitter.rs:296-309 | purging expired rows keeps the tables consistent |
| `Stores.MarkDoneEffect` | p256-index-cf/src/submitter.rs:467-483 | marking an active task done ends it, touches no other row and keeps the tables consistent, given the write is on the chain |
| `StoreViews.DoneIsRecorded` | p256-index-cf/src/submitter.rs:467-483 | a done record has the given transaction hash and id, or keeps the old ones, no error and the admitted mark; it is read for seven days and found by its content and keys as long; everybody else's rows stay |
| `StoreViews.FailureIsRecorded` | p256-index-cf/src/submitter.rs:513-575 | a failed record has one retry more and the note, keeps hash, id and mark, is read for thirty days, found by nobody and listed as a dead letter |
| `StoreViews.RetryIsRecorded` | p256-index-cf/src/submitter.rs:485-511 | a transient failure adds a retry and the note and leaves the task found as it was, or on the tenth ends it like a failure |
| `StoreViews.MarkIsSet` | p256-index-cf/src/submitter.rs:444-465 | the mark is set on a pending record and nothing else changes; a terminal or absent one is left alone; the answer is the record as it is then |
| `StoreViews.AdmissionIsRecorded` | p256-index-cf/src/submitter.rs:395-434 | a new task is read as it came, found by its content and under each of its keys that nobody held; no other row changes |
| `StoreViews.RepeatIsNamed` | p256-index-cf/src/submitter.rs:395-410 | the same content again changes nothing and names the task that has it |
| `StoreViews.MarkerIsRecorded` | p256-index-cf/src/submitter.rs:374-393 | a retry marker leads to its task for a day, as long as the task is read; no other marker changes |
| `StoreViews.PurgeIsInvisible` | p256-index-cf/src/submitter.rs:296-309 | a purge removes exactly what is expired, and no reader can tell, then or later |
| `Stores.MarkFailedEffect` | p256-index-cf/src/submitter.rs:513-525 | marking an active task failed ends it, touches no other row and keeps the tables consistent |
| `Stores.RecordTransientFailureEffect` | p256-index-cf/src/submitter.rs:485-511 | a transient failure spends one retry, and the tenth ends the task |
| `Stores.OutcomeKeepsOwner` | p256-index-cf/src/submitter.rs:467-575 | no outcome of any task takes a placeholder from another one |
| `Submitter.SubmitterObject.Admit` | p256-index-cf/src/submitter.rs:395-434 | the statements change the tables as the admission function does and return its answer |
| `Submitter.SubmitterObject.ClaimPlaceholders` | p256-index-cf/src/submitter.rs:420-432 | the claim loop adds a row for each key nobody holds and leaves the others |
| `Submitter.SubmitterObject.MarkAdmitted` | p256-index-cf/src/submitter.rs:444-465 | marks an active record, answers a terminal one unchanged |
| `Submitter.SubmitterObject.MarkDone` | p256-index-cf/src/submitter.rs:467-483 | the in-place transition is the one whose effect is proved above |
| `Submitter.SubmitterObject.RecordTransientFailure` | p256-index-cf/src/submitter.rs:485-511 | the in-place retry or exhaustion is the one whose effect is proved above |
| `Submitter.SubmitterObject.MarkFailed` | p256-index-cf/src/submitter.rs:513-525 | the in-place transition is the one whose effect is proved above |
| `Submitter.SubmitterObject.TransitionTerminal` | p256-index-cf/src/submitter.rs:529-575 | row, content index, placeholders and dead letters change together |
| `Submitter.SubmitterObject.PurgeExpired` | p256-index-cf/src/submitter.rs:296-309 | exactly the live rows of every table remain |
| `Submitter.SubmitterObject.Enqueue` | p256-index-cf/src/submitter.rs:436-442 | appends one envelope with the next number |
| `Submitter.SubmitterObject.PollBatch` | p256-index-cf/src/submitter.rs:609-616 | returns the oldest entries, all of them or exactly the limit |
| `Submitter.SubmitterObject.DeleteBatch` | p256-index-cf/src/submitter.rs:620-628 | removes the polled numbers one by one |
| `Submitter.DeletingThePolledBatch` | p256-index-cf/src/submitter.rs:609-628 | deleting what was polled from the front leaves exactly the rest, in order, with whatever was enqueued since |
| `RateLimits.Counters.BumpMinuteCounter` | p256-index-cf/src/submitter.rs:630-650 | the upsert counts one request, starting again when the window has ended |
| `RateLimits.UnderAMinute` | p256-index-cf/src/submitter.rs:630-650 | however requests arrive, at most 2 * limit - 1 of those within less than a minute are granted |
| `RateLimits.TheBoundIsMet` | p256-index-cf/src/submitter.rs:630-650 | for every limit that many are granted to some requests one millisecond apart, so the limit itself is not a bound per minute |
| `RedisRace.TerminalIsFinal` | p256-index-server/src/store.rs:244-337 | over every run a terminal record stays, with its TTL, until it expires, although no transition checks for one |
| `RedisRace.MarkIsLostExactly` | p256-index-server/src/store.rs:288-337 | a step loses the admitted mark exactly when the worker writes back a record read before the mark and not as Done |
| `RedisRace.LostMarkHasACulprit` | p256-index-server/src/store.rs:244-337 | if the mark is there and later missing, such a write came in between |
| `RedisRace.MarkCanBeLost` | p256-index-server/src/store.rs:302-318 | from every new record there is a run that marks it and loses the mark |
| `RedisRace.AdmittedMeansEnqueued` | p256-index-server/src/store.rs:244-278 | a record that carries the mark was enqueued before |
| `RedisRace.RetriesCountTheWrites` | p256-index-server/src/store.rs:288-337 | no transition is lost to a mark: an active record's retries are exactly the transitions written, and there are never more than ten |
| `RedisRace.RecordKeepsTheWrite` | p256-index-server/src/store.rs:244-337 | whatever races, the record is the admitted write |
| `Gas.Escalate` | p256-registrar/src/gas.rs:219-225 | the loop raises by half as much again, at most sixteen times |
| `Gas.SentReplacementReplaces` | p256-registrar/src/gas.rs:138-215 | under a cap of 1 to 2^128 - 1 every sent replacement strictly exceeds and reaches 110% of both old fees, has tip <= fee <= cap, covers the base fee, and nothing on that path saturated |
| `Gas.ReplacementExactly` | p256-registrar/src/gas.rs:138-215 | while nothing saturates, a replacement in closed form: both fees raised by half, rounded up, the tip at least the usual one and 1, the fee at least 2 * base + tip and the tip, under the cap; refused at the smallest fee that would do |
| `Gas.BlindReplacementExactly` | p256-registrar/src/gas.rs:145-166 | the replacement of a row without a price is the one over base + 1 and 2 * base + tip, each raised by half once per attempt, sixteen times at most |
| `Gas.RaisedExactlyUnderAPositiveCap` | p256-registrar/src/gas.rs:183-215 | for caps below 2^128 the rule holds for all inputs exactly when the cap is not zero |
| `Gas.RefusedOnlyWhenNothingFits` | p256-registrar/src/gas.rs:168-189 | a replacement is sent exactly when some bid under the cap would clear both floors and pay its own tip |
| `Gas.BlindBidReplaces` | p256-registrar/src/gas.rs:145-166 | an unrecorded row is outbid whenever its real bid is within the assumed one |
| `Gas.RungClimbs` | p256-registrar/src/gas.rs:194-215 | each replacement reaches 150% of the last fee or the cap |
| `Gas.NothingFollowsTheCap` | p256-registrar/src/gas.rs:168-189 | a bid at the cap is never raised |
| `Gas.LadderEnds` | p256-registrar/src/gas.rs:138-215 | k replacements under any market satisfy start * 3^(k-1) <= cap * 2^(k-1) |
| `Gas.DefaultLadderIsShort` | p256-registrar/src/gas.rs:36-36 | under the default cap a priced nonce is replaced at most forty times |
| `Gas.SentExactlyWhenItFits` | p256-registrar/src/gas.rs:104-123 | a fresh price is sent exactly when base fee and tip fit under the cap, with the tip in full and the fee between that sum and the cap |
| `Gas.FreshPriceExactly` | p256-registrar/src/gas.rs:104-123 | a fresh price in closed form: min(2 * base + tip, cap) and the tip, refused at base + tip |
| `Gas.PriceOutlastsExactly` | p256-registrar/src/gas.rs:104-123 | an unclamped price covers every stretch of n further blocks that EIP-1559 permits exactly when the base fee grown n times in full is at most 2 * base + tip |
| `Gas.FiveBlocksExactly` | p256-registrar/src/gas.rs:44-49 | five blocks are covered at every base fee exactly for tips of five or more |
| `Gas.SixBlocksUnderALargeTip` | p256-registrar/src/gas.rs:44-49 | six blocks are covered when the base fee is at least 8 and 7153 * base <= 262144 * tip |
| `Gas.SixBlocksAreTooManySomewhere` | p256-registrar/src/gas.rs:44-49 | for every tip whose price fits under the cap there is a base fee at which six blocks are not covered |
| `Rescue.PlanRoleSweep` | p256-registrar/src/rescue.rs:70-103 | filter, sort and budgeted loop compute the plan |
| `Rescue.PlanIgnoresLedgerOrder` | p256-registrar/src/rescue.rs:70-79 | the plan is the same for every order in which the ledger is listed |
| `Rescue.PlanIsExactlyWhatIsCalledFor` | p256-registrar/src/rescue.rs:80-102 | consumed rows are dropped, overdue ones reported, and a waiting row replaced exactly when fewer than five of the role's waiting nonces are smaller; nothing else is planned |
| `Rescue.PlanAscends` | p256-registrar/src/rescue.rs:78-102 | actions come by ascending nonce, a report before the replacement of the same nonce |
| `Wallet.StepKeepsShape` | p256-index-cf/src/submitter.rs:651-732 | every step of worker, chain and sweep keeps rows keyed and priced in 128 bits, pending nonces open and the sweep's listing and plan sound |
| `Wallet.CurrentIsSound` | p256-index-cf/src/submitter.rs:1034-1065 | whatever happened since the listing and since the confirmed nonce was read, a planned deletion is of a mined nonce and a planned replacement can be priced |
| `Wallet.ActMeans` | p256-index-cf/src/submitter.rs:1062-1148 | what each action does, from the listed row: a consumed row is deleted, a bid over the cap changes nothing, an accepted bid calls for a row with its hash, the sweep's time, one attempt more and its price, an underpriced one for the same with the listed hash and time, any other refusal for none |
| `Wallet.BidMeans` | p256-index-cf/src/submitter.rs:1071-1085 | a bid is the replacement over the listed row's price, or over its attempts if it has none, at the base fee the sweep read |
| `Wallet.ListsOlderThanTwoMinutes` | p256-index-cf/src/submitter.rs:1037-1043 | a sweep lists exactly the rows sent more than two minutes ago |
| `WalletRuns.SentIsRecorded` | p256-index-cf/src/submitter.rs:955-972 | in every run a send that is accepted and recorded leaves a row with its hash, the time of the write, no attempts and exactly the fresh price that is pending |
| `Wallet.StepSpoilsExactly` | p256-index-cf/src/submitter.rs:955-1158 | a step of anybody takes what is pending on a nonce off the record exactly when it loses the answer or the row of a transaction that was taken, or writes a smaller price over it, and no other row, written or about to be, says as much |
| `WalletRuns.OnRecordExactly` | p256-index-cf/src/submitter.rs:955-1158 | over any interleaving of worker, chain and sweeps what is pending on a nonce is on record all the way exactly when no step on the way spoils it |
| `WalletRuns.QuietNoncesAreSafe` | p256-index-server/src/maintenance.rs:107-278 | while nothing about a priced nonce is lost and no send on it overlaps a sweep that listed it, what is pending stays on record, and each bid stays under the cap and clears the replacement rule |
| `WalletRuns.EveryAnswerIsRecordedExactly` | p256-index-cf/src/submitter.rs:1108-1148 | a recorded bid leaves what is pending on record under every answer exactly when it covers what is pending before it, or the worker is about to write a row that does |
| `WalletRuns.CoversAResendExactly` | p256-registrar/src/gas.rs:104-215 | a bid priced from any row covers what the worker sends at another base fee exactly when min(2 * later + tip, cap) is at most the bid's fee, as it is whenever the base fee has not risen |
| `WalletRuns.ResentUnderASweepExactly` | p256-index-server/src/maintenance.rs:107-278 | every run that comes to a bid can go on with an eviction, a send at another base fee and a refused bid, and the pending transaction is then on record exactly under that condition |
| `WalletRuns.StaleBidSpoils` | p256-index-server/src/maintenance.rs:107-278 | a run after which 1530 is recorded for a pending 101000 |
| `WalletRuns.LostAcceptanceExactly` | p256-index-server/src/maintenance.rs:209-272 | every run that comes to a bid the node can take can go on with a lost acceptance, and the bid is then on record exactly when the row already says as much; the listed row does only if it has no price |
| `WalletRuns.LostRowExactly` | p256-index-cf/src/submitter.rs:1117-1128 | the same when the acceptance is heard and the ledger write fails or the sweep dies before it |
| `WalletRuns.LostSendExactly` | p256-index-cf/src/submitter.rs:955-995 | a worker's send whose answer or ledger write is lost is on record exactly when the nonce has a row that says as much, so never on a fresh nonce |
| `Maintenance.Loop.ListPending` | p256-index-server/src/store.rs:399-436 | lists the rows sent before the limit, each once, in any order |
| `Maintenance.Loop.Execute` | p256-index-server/src/maintenance.rs:153-272 | one action, with worker and chain moving before its ledger write, is a stretch of a run and moves the sweep to the next action |
| `Maintenance.Loop.Sweep` | p256-index-server/src/maintenance.rs:107-278 | a whole sweep, with worker and chain moving between any two awaits, any answers and any failed writes, is a stretch of a run that lists once, plans from a confirmed nonce read later and executes every planned action once |
| `Wallet.AlwaysReplacesExactlyWhenPriced` | p256-registrar/src/gas.rs:145-189 | a sent bid clears the replacement rule against everything that may be pending exactly when the row has a recorded price |
| `Wallet.BlindRecordDominatesExactly` | p256-registrar/src/gas.rs:145-215 | recording a bid for a row without a price does not understate anything that may be pending exactly when base + 1, raised by half min(attempts, 16) + 1 times, reaches the cap, or the cap is at most the default tip |
| `Rosters.Roster.Select` | p256-registrar/src/roster.rs:53-76 | picks what the failure log prescribes, moves its own lane's cursor past it, leaves the other lane |
| `Rosters.EligibleExactly` | p256-registrar/src/roster.rs:88-108 | a node is eligible exactly when it was never reported on, or its last report is a success or a failure of at least a minute ago |
| `ReadCalls.PickAt` | p256-registrar/src/roster.rs:53-86 | away from the wrap-around the pick is the first eligible node from the cursor on, the node under it if there is none, and the cursor then stands behind the pick |
| `Rosters.Roster.Available` | p256-registrar/src/roster.rs:90-99 | answers the log's eligibility, and its self-healing removal changes no later reading |
| `Rosters.Roster.MarkFailed` | p256-registrar/src/roster.rs:101-103 | the table goes on agreeing with the log that has one more failure |
| `Rosters.Roster.MarkHealthy` | p256-registrar/src/roster.rs:106-108 | the table goes on agreeing with the log that has one more success |
| `Rosters.Roster.CircuitState` | p256-registrar/src/roster.rs:117-124 | closed exactly when some read node is eligible |
| `Rosters.PickIsEligible` | p256-registrar/src/roster.rs:53-76 | under the guard an eligible node is picked whenever there is one |
| `Rosters.PickFindsExactly` | p256-registrar/src/roster.rs:53-86 | with distinct nodes every eligible node can be found exactly when cursor + len <= W, cursor = W - 1 or W mod len <= 1 |
| `Rosters.WrapHidesANode` | p256-registrar/src/roster.rs:84-84 | a 64-bit cursor and seven nodes outside the guard |
| `Rosters.CircuitIsWhatTheNextReadFinds` | p256-registrar/src/roster.rs:114-124 | under the guard the circuit is closed exactly when the next read goes to an eligible node |
| `Rosters.Roster.SelectThroughOutage` | p256-registrar/src/roster.rs:53-86 | len successive selects, with any reports between them and nothing eligible at any of them, return the forced picks from the cursor on, at any cursor |
| `Rosters.Roster.ProbeThroughOutage` | p256-index-server/src/chain.rs:956-969 | the same when each pick is reported failed before the next |
| `Rosters.RoundKeepsTheOutage` | p256-registrar/src/roster.rs:88-103 | after such a round nothing is eligible until a minute after its first pick, whatever was reported before |
| `Rosters.OutageGoesAround` | p256-registrar/src/roster.rs:71-86 | if W mod len = 0, cursor + len * (len + 1) <= W or cursor + len >= W, these picks are the lane rotated, so each node is picked as often as it is listed |
| `Rosters.OutageVisitsEveryNodeExactly` | p256-registrar/src/roster.rs:71-86 | with distinct nodes and len * (len + 1) <= W they visit every node exactly under that condition |
| `ReadCalls.Call` | p256-index-server/src/chain.rs:956-969 | a read makes at most min(len, 3) attempts, each the roster's pick under the failures reported so far, ends with the first answer or revert, and is unavailable exactly when all of them failed |
| `ReadCalls.DifferentNodesExactly` | p256-registrar/src/roster.rs:110-113 | the attempts of a read that is over within a minute of each failure go to min(len, 3) different nodes, eligible ones as long as there are any, exactly unless the third turns back to the first |
| `ReadCalls.SteadyTurnsBackExactly` | p256-registrar/src/roster.rs:53-86 | if nobody becomes eligible meanwhile it turns back exactly when two nodes are eligible, the one under the cursor and the one before it |
| `ReadCalls.CallCanTurnBack` | p256-registrar/src/roster.rs:53-86 | three nodes of which one is not tried |
| `CacheKeys.KeyTextIsInjective` | p256-index-cf/src/edge.rs:848-882 | different queries are cached under different texts, whatever rpIds and keys contain |
| `CacheKeys.DecimalIsInjective` | p256-index-cf/src/edge.rs:855-861 | different numbers print differently |
| `CacheKeys.PageSurvivesExactly` | p256-registrar/src/lookup.rs:572-572 | the shell recovers the page from the offset exactly while (page - 1) * size < 2^64 |
| `Lookups.EffectiveExactly` | p256-registrar/src/lookup.rs:567-577 | the chain is asked exactly the query that was made under that condition |
| `Lookups.FarPageWraps` | p256-registrar/src/lookup.rs:567-577 | page 2^63 + 1 of size 2 is a 64-bit page that is answered with page 1 |
| `Lookups.Pagination` | p256-registrar/src/lookup.rs:417-422 | the page asked for, or 1; the size asked for, clamped to 1 and 100, or 20; newest first unless ascending order is asked for |
| `Lookups.EveryAnswerIsBacked` | p256-index-cf/src/edge.rs:707-756 | over every interleaving of lookups an answer without a stale mark was read from the chain for that query in this lookup, or is from a row stored at most five minutes before the cache read; stale ones respect 24 h or 1 h; cached 404s are for ids, within a minute; and what a row holds was read between its writer's cache read and its storing |
| `LookupOutcomes.CacheAnswersExactly` | p256-index-cf/src/edge.rs:707-730 | a cache read ends the lookup exactly with a value of at most five minutes or the absence of an id of at most one, and otherwise keeps in reserve exactly a value of at most a day, an hour for statistics |
| `LookupOutcomes.StaleIsServedExactly` | p256-registrar/src/lookup.rs:612-621 | in every run a lookup whose chain read fails is answered with the value kept in reserve and its age, and is unavailable exactly when there was none |
| `LookupOutcomes.BudgetAnswersExactly` | p256-registrar/src/lookup.rs:882-892 | only an outright refusal of the read budget ends a lookup |
| `LookupOutcomes.ChainAnswerIsServed` | p256-registrar/src/lookup.rs:642-690 | what the chain says is what is answered, whether or not the cache takes it, and a written row is fresh for five minutes, or one for an absent id |
| `LookupOutcomes.AbsenceLeadsToTheTable` | p256-registrar/src/lookup.rs:588-611 | an absent key or group is looked up in the task table, absent statistics are an outage |
| `LookupOutcomes.TableAnswersExactly` | p256-registrar/src/lookup.rs:588-621 | the table's task answers unless it failed; otherwise a key has an empty profile and a group is not found; a table that is down ends the lookup |
| `Lookups.CachedAnswerIsThisOldAtMost` | p256-index-cf/src/edge.rs:707-756 | an answer served as fresh from the cache was read from the chain at most five minutes plus the writer's own duration before |
| `Lookups.CachedAnswerCanBeThatOld` | p256-index-cf/src/edge.rs:731-756 | for every query, value and duration a run meets that bound |
| `Lookups.NegativeMarkersAreForIds` | p256-registrar/src/lookup.rs:671-682 | the cache never holds a negative marker for anything but an entry or unit id |
| `Lookups.HiddenOnlyWithoutPlaceholder` | p256-registrar/src/lookup.rs:588-621 | a key or group query is answered "nothing there" only by a step that asked the task table and found no living placeholder |
| `Lookups.PlaceholderIsVisible` | p256-registrar/src/lookup.rs:588-611 | while an unfinished task owns the key's placeholder the answer of that step is the queue marker naming it |
| `Visibility.SubmittedIsNeverInvisible` | p256-registrar/src/lookup.rs:538-621 | in every interleaving of writes and reads, from the time an active task owns a key's placeholder until it ends, no query for that key or group settles as an empty profile or as not found, and a queue marker names that task |
| `Visibility.TableNamesExactly` | p256-registrar/src/lookup.rs:588-621 | in every interleaving the task table names an active task to a key or group query exactly when the task owns the placeholder at that time |
| `Visibility.VisibleExactlyWhenClaimed` | p256-index-cf/src/submitter.rs:420-432 | as long as a task is active, a query for one of its keys that gets to the table is answered with its marker exactly when the key had no row, live or expired, just before the task was admitted |
| `HiddenTasks.PendingCanBeInvisible` | p256-registrar/src/lookup.rs:588-621 | for every two registers that share a key and every chain without them there is a run in which the first fails and a query for the key settles as empty or not found while the second is pending |
| `Challenges.Base64Url32` | p256-registrar/src/verify.rs:18-34 | the loop writes the 43 letters of the 32 bytes |
| `Challenges.AlphabetRunsOn` | p256-registrar/src/verify.rs:18-34 | the alphabet is the one of section 5 of RFC 4648 |
| `Challenges.DecodeEncode` | p256-registrar/src/verify.rs:18-34 | every 32-byte value is recovered from its text |
| `Challenges.EncodeDecode` | p256-registrar/src/verify.rs:18-34 | the texts produced are exactly the 43-letter texts whose last letter carries four bits |
| `Challenges.CheckIsOccurrence` | p256-registrar/src/verify.rs:36-44 | the overflow guards refuse nothing: the check holds exactly when the text occurs at the offset |
| `Challenges.ChallengeIsBound` | p256-registrar/src/verify.rs:65-74 | one client data text and index pass for at most one challenge |
| `Replay.FirstRoundDecides` | p256-replay/src/main.rs:481-528 | after one round, registers first, only refers without a group are left and nothing will change for them |
| `Replay.RoundCounts` | p256-replay/src/main.rs:489-519 | every row of a round is counted exactly once |
| `Replay.RoundCountsReplies` | p256-replay/src/main.rs:489-519 | rows are counted as sent, present, waiting and failed by the reply each gets at its turn, and what goes through is written then |
| `Replay.RoundReports` | p256-replay/src/main.rs:503-519 | a refer without its group is kept for later, and the hash of what is refused is reported |
| `Replay.SecondReplayIsIdle` | p256-replay/src/main.rs:489-519 | after a round without failures every row is present, for any archive and order |
| `ReplayOrders.NeverFailsExactly` | p256-replay/src/main.rs:481-538 | no order of one deployment's registers and refers makes a row fail exactly when every row that can be the first to file a key has hints that fit |
| `ReplayOrders.SameRecordsExactly` | p256-replay/src/main.rs:444-455 | every order ends without a failure and with the same groups, references and files exactly under that condition |
| `ReplayOrders.OrderDoesNotMatter` | p256-replay/src/main.rs:444-455 | under it any two orders leave the same groups, references and files |
| `ReplayOrders.CleanExactly` | p256-replay/src/main.rs:481-538 | no order leaves a failed or waiting row exactly when, besides, archive and target hold every group that is referred to |
| `ReplayOrders.SameInEveryOrderExactly` | contracts/src/WebAuthnP256PublicKeyRegistry.sol:562-592 | every order ends with the very same registry exactly when, besides, for each key not on the target all new registers bring the same hints, or, where none files it, all refers that write do |
| `ReplayOrders.ShuffledReplayCanFail` | contracts/src/WebAuthnP256PublicKeyRegistry.sol:570-592 | two registers that one deployment takes, the second of which another one refuses if it comes first |
| `ReplayOrders.PlainReplayCanFail` | p256-replay/src/main.rs:457-488 | the same without a shuffle: a register that followed the refer which filed its key |
| `ReplayOrders.HintsCanDependOnOrder` | contracts/src/WebAuthnP256PublicKeyRegistry.sol:578-581 | any two different hints for one key show the order of their registers |
| `Archives.RegisterOnAgreeing` | contracts/src/WebAuthnP256PublicKeyRegistry.sol:458-592 | on a target that agrees with the source a register is already there, or written, or refused exactly when it would have to store hints that do not fit |
| `Archives.ReferOnAgreeing` | contracts/src/WebAuthnP256PublicKeyRegistry.sol:562-658 | on such a target a refer waits for its group, is refused for that reason only, is already there, or is written |
| `Refusals.RegisterAnswersExactly` | contracts/src/WebAuthnP256PublicKeyRegistry.sol:458-592 | on any target a register goes through exactly when it is well formed and proven, its group is new, its keys are distinct and each member agrees with its file or brings hints that fit; of a group that is there it is a duplicate |
| `Refusals.ReferAnswersExactly` | contracts/src/WebAuthnP256PublicKeyRegistry.sol:562-658 | the same for a refer: when it waits, is a duplicate, and goes through |
| `Refusals.WriteLeavesExactly` | contracts/src/WebAuthnP256PublicKeyRegistry.sol:562-658 | a write leaves its group or reference and a file for each new key with what the member brought, and no other file changes |
| `Archives.ArchiveIsConsistent` | contracts/src/WebAuthnP256PublicKeyRegistry.sol:458-658 | the successful writes of one deployment form an archive consistent with it |
| `ReplayTool.Shuffle` | p256-replay/src/main.rs:444-455 | the in-place loop performs the swaps the seed prescribes |
| `ReplayTool.ShuffledIsPermutation` | p256-replay/src/main.rs:444-455 | whatever the seed, the rows are only reordered |
| `ReplayTool.StreamFromOne` | p256-replay/src/main.rs:444-452 | the stream is xorshift64 with shifts 13, 7 and 17, by its first value from seed 1, and a partner is drawn modulo the index in hand plus one |
| `ReplayTool.Target.Pass` | p256-replay/src/main.rs:490-519 | the inner loop is one round |
| `ReplayTool.Target.Replay` | p256-replay/src/main.rs:457-538 | for any archive and seed: at most two rounds, every row accounted for, and target, counts and failed hashes are those of one round with what is left waiting given up |
| `ReplayTool.Target.Verify` | p256-replay/src/main.rs:542-565 | counts every row once, reports all present exactly when all are, and names exactly the missing and the anomalous ones |
| `ReplayTool.SeedDoesNotMatterExactly` | p256-replay/src/main.rs:444-538 | over all orders of a deployment's registers and of its refers, which include every seed's: no failure and the same records, the very same registry, and no waiting row either, each exactly under its condition |
| `ReplayTool.ReplayIsIdempotent` | p256-replay/src/main.rs:457-565 | after a round without failures over the reordered rows a second one in any order writes nothing and verify finds every row |
| `ReplayTool.ReplayTwiceAndVerify` | p256-replay/src/main.rs:457-565 | two calls of the tool with any two seeds, and then verify: if the first reports no failure, the second sends nothing, counts every row as present and fails none, and verify counts every row |

## Left out

- ECDSA, SHA-256, keccak and ABI encoding: keccak is an injective constructor, proofs are a boolean of the calldata.
- Request validation (`validate_register`, `validate_refer`): a request arrives as a validated record with a fresh id, or refused.
- HTTP routing, JSON bodies, CORS, config loading, Telegram, heartbeat and alert texts.
- Queue depth and statistics, and the budgets inside the pipeline: their values are arbitrary answers there; the counter itself is in `RateLimits`.
- A failure in the middle of one multi-statement table operation: every store operation is one atomic step that happens or does not.
- Redis commands that take effect after their timeout: an operation takes effect when it is issued or never.
- The Redis scripts' index maintenance: `RedisRace` follows the record; the indexes are modelled in their table form only.
- The docker queue's offsets and the worker's poll loop: the queue is the table of the Durable Object.
- Nonce acquisition: the worker may send on any open nonce, whichever it acquires.
- `ReadCalls.DifferentNodesExactly`: is stated for a read whose picks stay below the wrap-around of the 64-bit cursor, which is treated for single picks and outages, and whose attempts no other call's picks come between.
- RPC transport, receipts and transaction signing: they are oracle answers.
- Archive export (chunk halving, deploy-block search), `backoff_delay`, `health_reasons`, `alert_due`: settled by reading one loop or expression.
- Totals, timestamps and ids of the registry contract, and its lookup functions: the replay model keeps groups, files and references.
- A replay interrupted by a transport error: the loop is modelled on calls that answer.
