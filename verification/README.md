# Alert pipeline: a verified model

This project models the alert pipeline's state machines in Dafny and proves what they keep over whole runs. Six areas:

- **Dispatch outbox.** `OutboxTable` holds the table and each SQL transaction on it as a function, `OutboxFields` says what each leaves
  row by row. `DispatchProtocol` lets any
  number of workers, the emit path and the operator interleave over it, with a crash possible at every point, and bounds how often
  a channel accepts one notification. `ClaimHistory`, `SentRows`, `ClaimOrder` and
  `RetrySchedule` prove what the attempt counter, the sent status, the claim order and the backoff guarantee. `OutboxWorker` is the
  worker loop itself: each of its batches, with others at work between its statements, is part of a run of the protocol.
- **Incidents.** `Incidents` has the row, its refresh and its TTA/TTR timeline. `EmitProtocol` interleaves emits, operator actions and
  outbox traffic, with the insert split into its SELECT and its INSERT so that the unique index matters. `EmitOutcomes` derives
  what emits achieve, `EmitFields` what one of them leaves field by field. `Repository` and `Handler` are the repository and processor objects, proved against the same functions.
- **Dedup.** `DedupTransition` is the event-time transition, `Sessions` its batch meaning, `DedupAdapters` the two adapters around it
  (in-process engine and keyed state) as mutable objects, `DedupParity` says exactly when they agree, and `AliasExactness` when their
  alerts are equal to the letter.
- **Pipeline.** `Pipeline` joins keyed dedup and the database, with emits of different fingerprints interleaved, and relates their counts.
- **Read cache.** `CacheLock` is the refresh protocol over Redis; `CacheSnapshot` the load loop, the filters and the pages.
- **Small machines.** `RateLimiter` is the demo endpoints' limiter, `LokiSource` the Loki poller, `IdempotencyKey` key printing and splitting.

## How the model is built

Time is one real-valued clock. Each committed SQL transaction is one step, except the selection and the compare-and-swap of a claim, and
the SELECT and INSERT of an emit, which are separate steps. `Apply` functions are total: a step whose guard is false changes nothing,
so "every run" quantifies over every sequence of steps. Objects that the program updates in place are classes with the same fields;
their methods equate the new state with a specification function of the old one, and the main results are lemmas about those functions
and about runs of them. Fingerprints, titles and fresh uuids are inputs. What a channel answers to a send is an input too.

## Where code and documentation part ways

- Recording a failure computes `2.0 ** attempts` before capping it, which raises `OverflowError` exactly when 1023 < attempts <
  `max_attempts` (`RetrySchedule.MarkingRaisesExactly`). The row then stays processing until stale recovery hands it out again, so
  the stale time replaces the backoff, and it still dies at its `max_attempts`-th claim (`RetrySchedule.DeadAfterExactlyMaxAttempts`).
- A failed row need not have been attempted: a redrive resets the counter of a row under a worker whose late mark then fails it. That
  can happen exactly when the redrive resets a row under a claim past the audit check, or a held one whose payload does not parse or
  whose key has no audited success (`ClaimHistory.RedriveIsHarmlessExactly`).
- Sent is not absorbing: marking never checks that the caller still owns the row, so a late failure replaces somebody else's success. A
  sent row is final exactly when no claim of it is past the audit check without an accepted notification
  (`SentRows.SentIsFinalExactly`), and runs reach rows that are not (`SentRows.SentUnderAnOpenClaim`). Delivery safety is therefore a
  counting result, and its bound is reached (`DispatchProtocol.BoundIsReached`).
- The two dedup adapters differ on a late event once another key has swept memory (`DedupParity.LateEventSplitsTheAdapters`, exactly
  when: `DedupParity.AgreementIsTimeliness`). The level aliases WARNING and FATAL are normalized only on the wire, so alerts also
  differ when the first highest-ranked event of an incident has one (`AliasExactness.AlertsAreEqualExactly`).
- In the history of a row, `resolved_at` is ever set outside resolved exactly if an operator acknowledges the row while it is resolved
  (`Incidents.ResolveStampFitsExactly`), and `acknowledged_at` outside acknowledged and resolved exactly if an operator sets it to
  updated while it is acknowledged (`Incidents.AckStampFitsExactly`).
- The cache's double check after locking is skipped by forced refreshes and by early expiry, and by nothing else
  (`CacheLock.DoubleCheckLoadsExactly`). Reading a missing snapshot forces one, so two instances can load in a row
  (`CacheLock.MissingSnapshotLoadsTwice`). While no lock lapses under its owner, no other load under the lock comes within the TTL of
  the last one (`CacheLock.SoonLoadsAreForcedOrEarly`).
- The dispatch limit of a snapshot is global, so a chatty alert can empty the bucket of a quiet one
  (`CacheSnapshot.ChattyAlertHidesAQuietOne`, exactly when: `CacheSnapshot.CompleteExactlyWhenCutIsHarmless`).
- The Loki source speaks of at-least-once duplicates. A key that the seen-set never throws out is delivered exactly when the emit of its
  first event succeeds (`LokiSource.FirstEmitDecides`); after a failed one, later copies are passed over
  (`LokiSource.FailedEmitIsNotRetried` is a stream where that loses an event).

## Model

| member | source | states |
|---|---|---|
| `OutboxTable.ClaimBatchTakesFirstDue` | src/alert_pipeline/db/repository.py:343-395 | A claim returns exactly the first `batch_size` due rows after stale recovery, marks each processing with one more attempt, and leaves every other row as recovery left it |
| `OutboxFields.ClaimRowByRow` | src/alert_pipeline/db/repository.py:343-395 | With statuses and times written out: a claim takes the first `batch_size` of the pending and failed rows whose time has come and the processing rows untouched for longer than the stale time, by due time and id; taken rows are processing since now with one more attempt, abandoned rows not taken are pending and due now, all others are as before |
| `OutboxFields.MarkSentRowByRow` | src/alert_pipeline/db/repository.py:397-405 | Marking sent changes status, error and update time of that row and nothing else |
| `OutboxFields.MarkFailedRowByRow` | src/alert_pipeline/db/repository.py:427-438 | A failure kills the row once its attempts reach the maximum, raises above 1023 attempts, and else makes it due in 2, 4, 8, ..., 256 and then 300 seconds; errors are kept up to 2000 characters |
| `OutboxFields.RedriveRowByRow` | src/alert_pipeline/db/repository.py:519-536 | A redrive makes exactly the listed dead or failed rows, or all rows of the given status, pending, due now, without attempts and error |
| `OutboxFields.DeleteRowByRow` | src/alert_pipeline/db/repository.py:549-558 | A deletion removes exactly the listed rows, or all rows of the given status |
| `DispatchProtocol.DeliveriesAreBounded` | src/alert_pipeline/dispatchers/outbox_worker.py:54-102 | In every interleaving of workers, emits and operators, with crashes anywhere, a channel accepts the notification of one key at most once plus the times a processing row of that key was taken from its holder; once if that never happened |
| `DispatchProtocol.ReleasedCountsTakings` | src/alert_pipeline/db/repository.py:347-354 | The count in that bound grows exactly when a stale recovery, redrive or deletion takes a processing row of the key away; worker and emit steps never change it |
| `DispatchProtocol.BoundIsReached` | src/alert_pipeline/dispatchers/outbox_worker.py:71-85 | The bound is exact: for every stale time and every n some run with n stale recoveries delivers n + 1 times, each worker dying between the send and its audit entry |
| `DispatchProtocol.StepKeepsBounded` | src/alert_pipeline/db/repository.py:397-438 | Every step keeps the counting invariant: unmarked claims of a key never exceed its rows in flight plus the takings, and claims that delivered or are about to never exceed one plus the takings, although marking does not check ownership |
| `DispatchProtocol.AuditStopsExposure` | src/alert_pipeline/db/repository.py:440-448 | Once a success of a key is in the audit log, no step lets a further claim of it pass the audit check |
| `DispatchProtocol.AuditedKeyIsNeverResent` | src/alert_pipeline/dispatchers/outbox_worker.py:70-74 | From a state where a key is audited and no claim of it is past the check, no run ever delivers it again |
| `ClaimHistory.ClaimsAreSeparated` | src/alert_pipeline/db/repository.py:356-395 | Between two claims of one row lies a mark, a stale recovery or a redrive of it, even when selections and compare-and-swaps interleave without row locks |
| `ClaimHistory.AttemptsCountClaims` | src/alert_pipeline/db/repository.py:382-387 | In every run `attempts` equals the claims won since the row's insertion or last redrive |
| `ClaimHistory.FailedRowsHaveAttemptsLeft` | src/alert_pipeline/db/repository.py:427-438 | In every run a failed row has fewer attempts than the maximum |
| `ClaimHistory.FailedRowsWereAttempted` | src/alert_pipeline/db/repository.py:427-438 | In every run whose redrives reset no row under a claim that may still fail, a failed row has at least one attempt |
| `ClaimHistory.RedriveIsHarmlessExactly` | src/alert_pipeline/db/repository.py:521-534 | A redrive keeps failed rows attempted in every continuation without further redrives if and only if it resets no row under a claim that is past the audit check without an accepted notification, or held with a payload that does not parse or a key not yet audited |
| `ClaimHistory.ClaimedRowsWereAttempted` | src/alert_pipeline/db/repository.py:382-387 | Without redrives every row that was ever claimed has at least one attempt, also after the claim ended |
| `ClaimHistory.LateMarkFailsAnUnattemptedRow` | src/alert_pipeline/db/repository.py:521-534 | In any state, redriving processing rows and then marking the late failure leaves a failed row with zero attempts |
| `SentRows.SentSurvivesExactly` | src/alert_pipeline/db/repository.py:397-438 | A sent row stays sent through a step if and only if the step is not a redrive or deletion selecting it, nor a failure recorded by a claim of it without raising |
| `SentRows.SentThroughoutExactly` | src/alert_pipeline/db/repository.py:397-438 | Over whole runs the row is sent throughout if and only if no step of the run is of that kind |
| `SentRows.SentIsFinalExactly` | src/alert_pipeline/dispatchers/outbox_worker.py:58-94 | Short of operator actions, a sent row that a run has reached stays sent in every continuation if and only if no claim of it is past the audit check without an accepted notification; held claims are harmless, because its payload parses and its key is audited |
| `SentRows.SentUnderAnOpenClaim` | src/alert_pipeline/dispatchers/outbox_worker.py:70-85 | For every stale time some run reaches a sent row that is not final: its first claim passed the audit check, went stale and is still sending when the second one succeeds |
| `ClaimOrder.NothingOvertakes` | src/alert_pipeline/db/repository.py:316-325 | Once the clock is past a claimable row's due time, no insertion, mark, redrive or deletion of other rows puts another row ahead of it in claim order |
| `ClaimOrder.ClaimServesOrAdvances` | src/alert_pipeline/db/repository.py:356-367 | A claim, its stale recovery included, either serves the row or removes a full batch of rows from ahead of it |
| `ClaimOrder.NoStarvation` | src/alert_pipeline/db/repository.py:343-395 | With k rows ahead of it, a due row is claimed within k / batch_size + 1 claim calls, whatever else commits in between |
| `RetrySchedule.DeadAfterExactlyMaxAttempts` | src/alert_pipeline/db/repository.py:427-438 | For every `max_attempts`, a row whose every attempt fails is dead exactly after its `max_attempts`-th claim; before that it is failed with its claim count, or from the 1024th attempt on handed out again by stale recovery because recording the failure raised |
| `RetrySchedule.DeathIsAlwaysReached` | src/alert_pipeline/db/repository.py:427-432 | For every `max_attempts` some run takes a fresh row to its death, raises and recoveries included |
| `RetrySchedule.MarkingRaisesExactly` | src/alert_pipeline/db/repository.py:427-438 | Recording a failure raises if and only if the row exists and 1023 < attempts < `max_attempts`, and then writes nothing |
| `RetrySchedule.BackoffTotals` | src/alert_pipeline/db/repository.py:433-437 | The last claim comes no earlier than the summed waits after the first due time, and some run meets that sum up to an arbitrarily small slack per stale recovery: 2^m - 2 seconds up to nine attempts, 510 + 300 (m - 9) up to 1024, and the stale time more for each further attempt |
| `OutboxWorker.ClaimIsARun` | src/alert_pipeline/db/repository.py:343-395 | The claim transaction is a protocol run: one recovery, one selection, one compare-and-swap per candidate, each of which wins |
| `OutboxWorker.Worker.HandleRow` | src/alert_pipeline/dispatchers/outbox_worker.py:54-102 | With any steps of others before the check, the send, the audit entry and the mark, handling a row continues the protocol run and changes no other own claim; it delivers exactly when the payload parses, no success is audited at the check and the channel accepts; every send is logged with its alert, channel, outcome and key; and unless marking raises, the row ends sent without an error, or failed or dead with the worker's error text |
| `OutboxWorker.Worker.ProcessBatch` | src/alert_pipeline/dispatchers/outbox_worker.py:45-105 | With any steps of others between its statements, a whole batch is part of one protocol run: its claims are of exactly the rows the claim transaction returns, in order, every row it handled is marked, and on a raise the later rows stay claimed |
| `Repository.AlertRepository.ClaimOutboxBatch` | src/alert_pipeline/db/repository.py:329-395 | Recover, select and the loop of compare-and-swaps take and leave rows as the row-by-row description says and return the taken rows in order |
| `Repository.AlertRepository.MarkOutboxSent` | src/alert_pipeline/db/repository.py:397-405 | Marks the row sent and clears its error, whoever holds it; a missing row is left alone |
| `Repository.AlertRepository.MarkOutboxFailed` | src/alert_pipeline/db/repository.py:407-438 | Missing, dead, failed with capped exponential delay, or raised with nothing written, as the specification function says |
| `Repository.AlertRepository.RedriveOutbox` | src/alert_pipeline/db/repository.py:502-536 | Listed rows that are dead or failed, or all rows of the given status, become pending, due now, without attempts and error; every other row is unchanged; their number is returned |
| `Repository.AlertRepository.DeleteOutbox` | src/alert_pipeline/db/repository.py:538-558 | Listed rows whatever their status, or all rows of the given status, are gone; every other row is unchanged; their number is returned |
| `Repository.AlertRepository.DispatchIdempotencySucceeded` | src/alert_pipeline/db/repository.py:440-448 | True exactly when the audit log holds a success of the key |
| `Repository.AlertRepository.EnqueueInSession` | src/alert_pipeline/db/repository.py:296-327 | The loop over channels leaves the table and the created keys of the specification function, skipping keys already present |
| `Repository.AlertRepository.UpsertAndMaybeEnqueueOnce` | src/alert_pipeline/db/repository.py:138-201 | One attempt refreshes the active row or inserts one and enqueues in the same transaction; on a constraint violation nothing is written |
| `Repository.AlertRepository.UpsertAndMaybeEnqueue` | src/alert_pipeline/db/repository.py:108-136 | One attempt and, after a constraint violation, one retry as an update |
| `Repository.AlertRepository.SetAlertStatus` | src/alert_pipeline/db/repository.py:208-224 | Rejects exactly suppressed, reports exactly missing rows, refuses exactly to make a row open, updated or acknowledged beside another such row of its fingerprint, and else sets status, stamps and whole-second durations as the field-by-field description says |
| `Repository.AlertRepository.ResolveAlert` | src/alert_pipeline/db/repository.py:226-236 | Exactly the open, updated and acknowledged rows of the fingerprint become resolved, with stamps and durations; every other row is unchanged |
| `Repository.AlertRow.ApplyStatusTimestamps` | src/alert_pipeline/metrics.py:28-64 | The in-place branches set, keep and clear each stamp as the field-by-field description says, with durations in whole seconds from first_seen |
| `Repository.AlertRow.ApplyEvent` | src/alert_pipeline/db/mapping.py:46-65 | The in-place refresh leaves the row that the refresh function describes |
| `Incidents.StatusChangeKeepsTimeline` | src/alert_pipeline/metrics.py:28-64 | Every operator transition keeps the timeline invariant: a stamp and its duration appear together, a duration n satisfies n <= stamp - first_seen < n + 1 or is 0 for an earlier stamp, acknowledged has its stamp, resolved has both in order, suppressed is never reached |
| `Incidents.SecondsAreWhole` | src/alert_pipeline/metrics.py:23-25 | A duration is the whole seconds between its two times, 0 if they come in the wrong order |
| `Incidents.StatusChangeByField` | src/alert_pipeline/metrics.py:28-64 | For every previous and new status: which stamps are set, cleared or kept, durations measured in whole seconds where a stamp is set, everything else unchanged |
| `Incidents.NewRowShowsTheAlert` | src/alert_pipeline/db/mapping.py:25-43 | An inserted row has the alert's value in every field and no stamps |
| `Incidents.RefreshShowsTheAlert` | src/alert_pipeline/db/mapping.py:46-65 | A refresh takes over severity and last_seen, message and trace id if given, and a larger count of an alert that is not new, else counts one more; it keeps everything else |
| `Incidents.RefreshKeepsTimeline` | src/alert_pipeline/db/mapping.py:46-65 | A pipeline refresh keeps the timeline, keeps the row active, leaves acknowledged rows acknowledged and makes no other row acknowledged, and strictly raises the count |
| `Incidents.ResolvedMeansTtaWithinTtr` | src/alert_pipeline/metrics.py:46-52 | A resolved row has both durations and TTA is at most TTR |
| `Incidents.ImplicitAckMakesTtaTtr` | src/alert_pipeline/metrics.py:49-52 | Resolving a row nobody acknowledged stamps both at once with equal durations |
| `Incidents.ResolveStampKeptExactly` | src/alert_pipeline/metrics.py:41-64 | From a row whose resolve stamp fits its status, a status change keeps that if and only if it does not acknowledge a resolved row |
| `Incidents.AckStampKeptExactly` | src/alert_pipeline/metrics.py:41-64 | From a row whose acknowledge stamp fits its status, a status change keeps that if and only if it does not set an acknowledged row to updated |
| `Incidents.ResolveStampFitsExactly` | src/alert_pipeline/metrics.py:28-64 | Over whole histories of operator changes and refreshes, only resolved rows carry a resolve stamp if and only if no operator acknowledges the row while it is resolved |
| `Incidents.AckStampFitsExactly` | src/alert_pipeline/metrics.py:28-64 | Over whole histories, only acknowledged or resolved rows carry an acknowledge stamp if and only if no operator sets the row to updated while it is acknowledged |
| `Incidents.NewRowFits` | src/alert_pipeline/db/mapping.py:25-43 | An inserted row starts with both properties |
| `Incidents.ReacknowledgingKeepsTheResolveStamp` | src/alert_pipeline/metrics.py:41-44 | Resolve, acknowledge, open leaves the resolve stamp on an open row; opening directly clears the whole timeline |
| `Incidents.DetourKeepsTheAckStamp` | src/alert_pipeline/metrics.py:54-64 | Acknowledge, updated, open leaves the acknowledge stamp on an open row; opening directly wipes it |
| `EmitProtocol.RunKeepsWorld` | src/alert_pipeline/db/repository.py:44-47 | In every interleaving of emits, operators and workers: at most one active row per fingerprint, consistent timelines, and every key ever issued names an incident whose count has reached the key's |
| `EmitProtocol.StepKeepsWorld` | src/alert_pipeline/db/repository.py:176-236 | Every step keeps that invariant, never removes an incident, never changes its fingerprint or first_seen and never lowers its count |
| `EmitFields.AtMostOneOpenRow` | src/alert_pipeline/db/repository.py:44-47 | In every run at most one row of a fingerprint is open, updated or acknowledged |
| `EmitFields.DurationsAreWholeSeconds` | src/alert_pipeline/metrics.py:23-25 | In every run each row has a duration exactly when it has the stamp, and it is the whole seconds from first_seen to the stamp, 0 if that comes first |
| `EmitProtocol.FreshEnqueueAddsOneRowPerChannel` | src/alert_pipeline/db/repository.py:296-327 | With unused keys, enqueueing appends one pending row per channel, in order, and changes nothing else |
| `EmitProtocol.ReenqueueIsNoOp` | src/alert_pipeline/db/repository.py:309-313 | Enqueueing the same alert again changes nothing and creates no key |
| `EmitOutcomes.EveryCommitEnqueuesFreshly` | src/alert_pipeline/db/repository.py:138-201 | In every run, an emit that should notify adds exactly one row per enabled channel under keys disjoint from all keys issued before, deleted rows included |
| `EmitOutcomes.AckSuppressionIsExact` | src/alert_pipeline/processing/handler.py:232-266 | `dispatch_suppressed` holds exactly when suppression is on and the written row is acknowledged, and an emit enqueues nothing exactly then or when no channel is enabled |
| `EmitOutcomes.OnlyOperatorsReopen` | src/alert_pipeline/db/mapping.py:58-59 | A row leaves acknowledged or resolved only by an operator step |
| `EmitOutcomes.InsertRaceEndsWithOneRow` | src/alert_pipeline/db/repository.py:124-136 | Two emits that both see no active row, under any two policies that let them pass, end with one row; the refused insert leaves no trace and its retry makes the winner's count strictly larger |
| `EmitOutcomes.NoReopenMeansOneRowEver` | src/alert_pipeline/processing/handler.py:212-225 | If every serialized emit disallows reopening, a fingerprint has at most one row in every run |
| `EmitFields.EmitCountsOnTheOpenRow` | src/alert_pipeline/db/repository.py:176-201 | With an open, updated or acknowledged row of the fingerprint, an emit changes exactly that row, with severity, last_seen, count and status written out, and reports it as not new |
| `EmitFields.EmitInsertsItsRow` | src/alert_pipeline/db/repository.py:183-193 | Without one, it inserts exactly one row showing the alert, under the alert's id, or under the fresh id and as new if that id is taken |
| `EmitFields.ReopenPolicyByStatus` | src/alert_pipeline/processing/handler.py:212-225 | The policy skips an emit if and only if reopening is disallowed, no row of the fingerprint is open, updated or acknowledged, and one is resolved |
| `EmitFields.ReopenAddsARow` | src/alert_pipeline/processing/handler.py:212-246 | With reopening allowed, an emit after a resolve leaves a second, active row beside the unchanged resolved one |
| `Handler.EnabledChannelNames` | src/alert_pipeline/dispatchers/registry.py:20-34 | The appended names are the enabled channels in fixed order, each exactly when dispatch and its own switch are on |
| `EmitProtocol.ChannelsBySwitch` | src/alert_pipeline/dispatchers/registry.py:25-34 | Each switch turns on its own channel, none when dispatch is off, in fixed order |
| `Handler.AlertProcessor.PersistAndMaybeDispatch` | src/alert_pipeline/processing/handler.py:205-290 | Skips without writing if and only if reopening is disallowed, no row of the fingerprint is open, updated or acknowledged and one is resolved; otherwise leaves exactly the database of the upsert with its retry, on the open row or a new one, and reports id, novelty, count and suppression of what was committed |
| `Handler.CallIsSerialEmit` | src/alert_pipeline/processing/handler.py:239-246 | Such a call with nobody in between commits what one serialized emit of the protocol commits |
| `Handler.CountedChannelsAreTheEnabledOnes` | src/alert_pipeline/processing/handler.py:270-274 | Splitting a created key gives back the channel it was enqueued for |
| `IdempotencyKey.PrintIsInjective` | src/alert_pipeline/db/repository.py:276-278 | With colon-free channels, equal printed keys have equal alert id, channel and count |
| `IdempotencyKey.SplitRecoversChannel` | src/alert_pipeline/processing/handler.py:272-273 | With colon-free ids and channels, splitting a printed key at colons gives back its three parts |
| `Sessions.OnlineEqualsBatch` | src/alert_pipeline/dedup/transition.py:119-190 | Folding the transition over any event list, ordered or not, equals the batch description: an event opens an incident iff it is first or comes more than the previous window after the previous timestamp, and count, id, time span, last emit and severity follow |
| `Sessions.SeverityIsTheMaximum` | src/alert_pipeline/dedup/transition.py:180-183 | An incident's severity is critical or fatal if it holds such an event, else error if it holds one, else warn or warning, else info, else debug, and it is the level of one of its events |
| `Sessions.AlertShowsIncident` | src/alert_pipeline/dedup/transition.py:149-170 | The alert of an event shows its incident field by field: first and last timestamps, count, severity, identity and descriptive fields of the opening event, latest message and trace |
| `Schemas.LevelsInOrder` | src/alert_pipeline/schemas.py:23-55 | DEBUG < INFO < WARN = WARNING < ERROR < CRITICAL = FATAL, and normalization changes only the two aliases |
| `DedupAdapters.LevelFilterByName` | src/alert_pipeline/dedup/engine.py:63-65 | Which levels each minimum level drops, by name |
| `Sessions.CountsAddUp` | src/alert_pipeline/dedup/transition.py:149-173 | The final counts of all incidents sum to the number of events |
| `Sessions.NotificationRateIsBounded` | src/alert_pipeline/dedup/transition.py:185-190 | With nondecreasing unclamped timestamps and constant settings, at most 1 + (t1 - t0) / min(refire, window) notifications fall into [t0, t1] |
| `Sessions.ConsecutiveEmitsAreApart` | src/alert_pipeline/dedup/transition.py:101-116 | Consecutive notifications are at least min(refire, window) apart |
| `DedupAdapters.MemoryDedupStore.ExpireStale` | src/alert_pipeline/dedup/store.py:100-108 | The deletion loop keeps exactly the entries no more than their window behind the clock, unchanged |
| `DedupAdapters.MemoryDedupStore.TryCreate` | src/alert_pipeline/dedup/store.py:88-94 | Creates the entry exactly when its key is absent, else changes nothing |
| `DedupAdapters.DedupEngine.Process` | src/alert_pipeline/dedup/engine.py:61-128 | Sweep, decide, create or put in place equals one step of the memory adapter: events below the minimum level by name change nothing, the entry's severity is the graver of its old one and the event's by name, and an emitted alert shows the stored entry field by field |
| `DedupAdapters.KeyState.ProcessEnriched` | src/alert_pipeline/dedup/quix_state.py:69-144 | Drop, transition and set in place equals one step of the keyed adapter: the state's severity is the graver of its old one and the event's normalized one by name, and an emitted alert shows the state field by field |
| `DedupAdapters.MemoryEntryIsNamed` | src/alert_pipeline/dedup/store.py:83-94 | An entry the engine writes has a service and a host, its event's timestamp and window; other entries are kept or swept |
| `DedupAdapters.ZeroSettingsMeanDefaults` | src/alert_pipeline/dedup/quix_state.py:89-90 | The keyed adapter takes a window of 0 for 300 and a refire of 0 for 60 seconds |
| `DedupParity.AgreementIsTimeliness` | src/alert_pipeline/dedup/engine.py:67-73 | On every multi-fingerprint stream the two adapters make the same decisions with equal alerts if and only if no event comes after a sweep outlived its key's window that its own clock has not |
| `DedupParity.ParityOnNondecreasingClocks` | src/alert_pipeline/dedup/quix_state.py:83-144 | From empty stores they agree on every stream with nondecreasing clocks and window and refire at least 1 |
| `DedupParity.TimelyStepAgrees` | src/alert_pipeline/dedup/store.py:100-108 | One timely event keeps the simulation relation: a key is in memory exactly when no sweep outlived its keyed state, and then both states agree |
| `DedupParity.LateEventSplitsTheAdapters` | src/alert_pipeline/dedup/quix_state.py:95-106 | A concrete three-event stream on which they differ |
| `DedupParity.NormalizedLevelsAgreeExactly` | src/alert_pipeline/dedup/quix_state.py:39-44 | On events with normalized levels, agreement up to level aliases is equality |
| `AliasExactness.AlertsAreEqualExactly` | src/alert_pipeline/dedup/quix_state.py:39-44 | From empty stores, on every multi-fingerprint stream, the adapters emit equal alerts if and only if no event comes late and, at every notifying event, the first highest-ranked event since its incident opened is not WARNING or FATAL |
| `DedupParity.AliasSplitsTheAdapters` | src/alert_pipeline/dedup/quix_state.py:39-44 | For the first event of a key the alerts are equal if and only if its level is not an alias |
| `DedupParity.CreateRaceCountsBoth` | src/alert_pipeline/dedup/engine.py:87-107 | Two threads creating one key leave one entry: within the first event's window with count 2 and the winner's id, past it with count 1 and the loser's; the loser is never reported as new, and emits past the window or when the refire interval has passed |
| `Pipeline.DatabaseCountIsBetween` | src/alert_pipeline/db/mapping.py:52-55 | In every run where emits of one fingerprint take turns and all others interleave between their statements, each emit commit writes a row that counts at least what dedup counts and at most the events delivered for the fingerprint, through window expiry and reuse of an old alert id |
| `Pipeline.CountsNeverExceedDeliveries` | src/alert_pipeline/db/repository.py:176-201 | At no time of such a run does a row count more than the delivered events of its fingerprint, and while an emit of the fingerprint is under way every row counts fewer |
| `CacheLock.ReleaseNeverTakesAnothersLock` | src/alert_pipeline/cache/alert_cache.py:282-302 | In every run a release leaves a lock with another token alone, even after expiry or invalidation in between |
| `CacheLock.AtMostOneLockedLoad` | src/alert_pipeline/cache/alert_cache.py:441-487 | At most one instance works under the lock, not counting those whose lock expired or was deleted meanwhile |
| `CacheLock.LockLivesForItsTtl` | src/alert_pipeline/cache/alert_cache.py:269-277 | In every run a lock taken at time t stays its instance's until t + lock TTL, so nobody else gets one and none is lost, unless its own release or a pipeline invalidation ends it; at that time it is gone |
| `CacheLock.SnapshotLivesForItsHardTtl` | src/alert_pipeline/cache/alert_cache.py:258-262 | A stored snapshot can be read for int(ttl) + int(lock_ttl) + 2 seconds unless replaced or invalidated, and not longer |
| `CacheLock.ReadIsServedExactly` | src/alert_pipeline/cache/alert_cache.py:499-504 | In every run a read is served if and only if a snapshot loaded less than the TTL ago is stored and no early expiry strikes; else it refreshes, by force exactly when none is stored |
| `CacheLock.RefreshEndsEarlyExactly` | src/alert_pipeline/cache/alert_cache.py:432-451 | A refresh ends before the lock exactly when it is not forced and a snapshot is fresh; it gets the lock exactly when nobody has it and waits else; a wait ends exactly when a snapshot is stored |
| `CacheLock.CriticalEndsInRelease` | src/alert_pipeline/cache/alert_cache.py:460-487 | Work under the lock ends in a release, whether it stored, failed or found the snapshot fresh |
| `CacheLock.ReleaseIsComplete` | src/alert_pipeline/cache/alert_cache.py:288-300 | In every run a release goes on until the lock is not the instance's own |
| `CacheLock.ReleaseFreesItsLock` | src/alert_pipeline/cache/alert_cache.py:290-298 | An undisturbed release frees the instance's own lock and leaves any other |
| `CacheLock.InvalidationForcesReads` | src/alert_pipeline/ui_cache_invalidate.py:29-33 | After an invalidation every read refreshes by force; the pipeline's also takes the lock |
| `CacheLock.ServedReadsAreRecent` | src/alert_pipeline/cache/alert_cache.py:499-516 | A read served without refresh gets a snapshot loaded less than `ttl_seconds` ago |
| `CacheLock.DoubleCheckLoadsExactly` | src/alert_pipeline/cache/alert_cache.py:460-474 | In every run the instance that got the lock loads if and only if its refresh is forced, the early expiry strikes, or the last load that nobody invalidated is at least one TTL ago |
| `CacheLock.MissingSnapshotLoadsTwice` | src/alert_pipeline/cache/alert_cache.py:502-503 | Two reads of a missing snapshot both force a refresh, and the second loads although a fresh snapshot is stored |
| `CacheSnapshot.FillBuckets` | src/alert_pipeline/cache/alert_cache.py:368-372 | The loop gives each alert with rows a bucket holding the first `max_dispatches_per_alert` of its rows |
| `CacheSnapshot.LoadBuckets` | src/alert_pipeline/cache/alert_cache.py:361-372 | With the query's restriction to cached alerts and its global limit, every bucket is the loaded part of its alert's log |
| `CacheSnapshot.BucketIsTheNewestPart` | src/alert_pipeline/cache/alert_cache.py:361-372 | A bucket is a prefix of the alert's newest-first log and never longer than the maximum |
| `CacheSnapshot.CompleteExactlyWhenCutIsHarmless` | src/alert_pipeline/cache/alert_cache.py:366 | A bucket is complete up to the maximum if and only if every log of the alert past the global limit has a full bucket of newer ones |
| `CacheSnapshot.QuietAlertsAreComplete` | src/alert_pipeline/cache/alert_cache.py:366 | While no cached alert has more logs than a bucket holds, the limit is never hit and every bucket is the whole log |
| `CacheSnapshot.ChattyAlertHidesAQuietOne` | src/alert_pipeline/cache/alert_cache.py:361-372 | Under any limits a log exists in which one alert uses up the global limit and the other's bucket is empty although it has a log |
| `CacheSnapshot.LabelsMatch` | src/alert_pipeline/cache/alert_cache.py:572-579 | The early-return loop is the conjunction over all wanted labels, an empty value asking for the key alone |
| `CacheSnapshot.FilteredAlerts` | src/alert_pipeline/cache/alert_cache.py:529-598 | Sorting and the chain of filters list exactly the alerts matching the whole query, in sorted order |
| `CacheSnapshot.SortIsStable` | src/alert_pipeline/cache/alert_cache.py:541-543 | The sort is a permutation, newest activity first, and leaves alerts of equal activity in their order |
| `CacheSnapshot.ListingIsSortedAndComplete` | src/alert_pipeline/cache/alert_cache.py:541-598 | A listing is newest first and holds every matching alert exactly as often as the snapshot does, and no other |
| `CacheSnapshot.ListedByField` | src/alert_pipeline/cache/alert_cache.py:545-597 | An alert is listed if and only if it is in the snapshot, has one of the asked statuses and severities, the service, for each asked label a last label of that key with that value, and the text; empty filters do not restrict |
| `CacheSnapshot.ListedByTime` | src/alert_pipeline/cache/alert_cache.py:542-543 | Listed alerts come in order of last_seen, or first_seen where that is missing, latest first |
| `CacheSnapshot.LabelsFilterOneByOne` | src/alert_pipeline/cache/alert_cache.py:556-581 | Filtering by several labels is filtering by one after the other, in any order |
| `CacheSnapshot.LabelsIntersect` | src/alert_pipeline/cache/alert_cache.py:556-581 | An alert is listed under several labels iff it is listed under each |
| `CacheSnapshot.FilteringKeepsOrder` | src/alert_pipeline/cache/alert_cache.py:545-597 | Every filter of a newest-first list is newest first |
| `CacheSnapshot.NextExactlyBeforeTheLast` | src/alert_pipeline/cache/alert_cache.py:67-79 | For every requested page and size, has_next holds iff the page number is below the number of pages, and a page is empty iff its number is past the last |
| `CacheSnapshot.PageNumbers` | src/alert_pipeline/cache/alert_cache.py:613-614 | Page numbers below 1 mean 1, and page sizes are held between 1 and 200 |
| `CacheSnapshot.PageByPosition` | src/alert_pipeline/cache/alert_cache.py:624-627 | Page p begins with item (p - 1) * size and is full as long as the list lasts |
| `CacheSnapshot.BrowsingShowsEverything` | src/alert_pipeline/cache/alert_cache.py:613-627 | Following has_next from page 1 shows the whole filtered list, each item once and in order |
| `CacheSnapshot.PagesPartitionTheList` | src/alert_pipeline/ui/app.py:199-208 | Pages 1 to `pages` concatenate to the list, and one page fewer would not hold it |
| `RateLimiter.Bucket.RateLimitOk` | src/alert_pipeline/ui/app.py:211-223 | The pruned list admits exactly when fewer than `limit` of all earlier admissions lie in [now - 60.0, now] |
| `RateLimiter.EveryMinuteHoldsAtMostLimit` | src/alert_pipeline/ui/app.py:211-223 | With a nondecreasing clock at most `limit` admissions have times in [t, t + 60.0], for every t |
| `RateLimiter.RefusedExactlyWhenFull` | src/alert_pipeline/ui/app.py:220-221 | A request is refused iff the last minute holds exactly `limit` admissions |
| `RateLimiter.AdmitsTheMost` | src/alert_pipeline/ui/app.py:211-223 | No way of admitting requests with at most `limit` in any minute admits more of them |
| `LokiSource.WindowsLeaveNoGap` | src/alert_pipeline/sources/grafana/loki.py:124-143 | With a nondecreasing clock the answered windows cover everything from the first one's start to the cursor, whichever queries fail |
| `LokiSource.WindowsOverlapByOneSecond` | src/alert_pipeline/sources/grafana/loki.py:127-131 | The first window looks back as configured, and each later one begins one second before the end of the one before |
| `LokiSource.RepeatsArePaidByOverflows` | src/alert_pipeline/sources/grafana/loki.py:179-183 | The seen-set never exceeds 50 000, keys taken repeatedly number at most 25 000 per overflow, and overflows are at least 25 000 keys apart |
| `LokiSource.FewKeysAreEmittedOnce` | src/alert_pipeline/sources/grafana/loki.py:147-156 | While at most 50 000 distinct keys were taken, no key is emitted twice |
| `LokiSource.TakenKeysAreConserved` | src/alert_pipeline/sources/grafana/loki.py:147-156 | In every run each key was taken once for every time it was thrown out of the set, and once more if it is in it |
| `LokiSource.RetakenOnlyAfterLoss` | src/alert_pipeline/sources/grafana/loki.py:148-151 | A remembered key is taken again at most as often as it is thrown out afterwards |
| `LokiSource.FirstEmitDecides` | src/alert_pipeline/sources/grafana/loki.py:147-156 | In every run a key never thrown out is emitted if and only if the emit of its first event in an answered query succeeded |
| `LokiSource.FirstEmitDecidesForFewKeys` | src/alert_pipeline/sources/grafana/loki.py:147-156 | In every run in which at most 50 000 distinct keys arrive this holds of every key |
| `LokiSource.OverflowsExactlyForManyKeys` | src/alert_pipeline/sources/grafana/loki.py:179-183 | In every run the set overflows at some time if and only if more than 50 000 distinct keys arrive |
| `LokiSource.TakenEventsDecide` | src/alert_pipeline/sources/grafana/loki.py:147-156 | In every run, overflows or not, a key is emitted if and only if the emit of one of the events taken for it succeeded |
| `LokiSource.Source.Remember` | src/alert_pipeline/sources/grafana/loki.py:179-183 | Adds the key and, past 50 000, drops some 25 000 keys of the set in an unspecified order |
| `LokiSource.Source.PollOnce` | src/alert_pipeline/sources/grafana/loki.py:124-177 | A poll equals one step of the model: a failed query changes nothing, an answered one takes unseen keys, publishes those whose emit succeeds, records the window and moves the cursor |

## Left out

- HTTP dispatchers, Kafka and Quix wiring, DLQ producers, FastAPI routes, the static UI, Alembic and Docker: I/O and glue. A send is an arbitrary success or failure, retries inside one send included.
- Inline dispatch mode, demo endpoints and `clear_all`: they bypass the protocol the results are about.
- SHA-256 fingerprints and message normalization: the fingerprint and the title are inputs of an event.
- Grafana normalization, YAML loading, Settings validation and widget CRUD: branch by branch reading without a deeper invariant.
- Lost updates between concurrent transactions refreshing one existing alert row, whose SELECT takes no lock: a refresh is one atomic step.
- Partial failures inside the claim transaction: it commits or rolls back as a whole. Others act between the worker object's statements, not inside that transaction; the protocol itself interleaves even its selection and compare-and-swaps.
- Redis errors and the in-memory fallback of the cache, the unlocked load after a lock-wait timeout beyond its leaving the protocol, and the cache's `generation`.
- Probabilistic early expiry draws random numbers: it is a free boolean of each read.
- Case folding and the joined search text of an alert: functions and fields of the input.
- Statistics, service lists and success counts of a snapshot.
- The clamp of timestamps far in the future: an event carries its clock and its raw timestamp separately, and only the clock is clamped.
- `updated_at` is written by the ORM on some updates: it is the statement's own time here.
- Floating-point rounding: times and delays are reals; only the overflow of the backoff power is modelled.
- The mutable incident object in the memory store is a value, so writes through an alias of a stored incident are not modelled.
- Truncated Loki answers: nothing is claimed about events beyond the query limit.
