# Verification of KubeCron's core

A Dafny model of the parts of KubeCron whose correctness is not visible from reading one function:
the live log protocol, the search for the last scheduled run and the missed-run verdict, the SQLite
store as a state machine, paging over its text timestamps, the watchers that keep it up to date,
startup recovery, migrations, and the rate limiter. `dafny verify dfyconfig.toml` checks all of it.

Code that the repository writes as objects updated in place (rate limiter, broadcaster, store,
handlers, run index, log capture, migrations) is a class or a method with a loop here, each proved
equal to a value-level step function. The theorems are about those step functions, over every trace,
interleaving or history.

| file | models |
|---|---|
| `RateLimiter.dfy` | the fixed-window limiter, per source address |
| `Schedule.dfy` | `PrevRun`, `walk`, `NextRuns`, `IsMissed` over a set of instants |
| `Broadcaster.dfy` | the fan-out, with channels, locks and panics, over every interleaving |
| `LiveLogs.dfy` | streamers, store, broadcaster and one viewer, over every interleaving |
| `CaptureOnce.dfy` | handlers, guard and flushes of one run, over every interleaving: when its log is captured twice |
| `StreamHandler.dfy` | what the stream handler writes and when it ends |
| `LogStream.dfy` | batching, flushing and accounting of one captured log |
| `Store.dfy` | tables, statements, foreign keys, cascades, soft deletion |
| `RunLogs.dfy` | the tail query and the expired and truncated flags |
| `Retention.dfy` | the three deletes of a retention pass |
| `CronJobs.dfy` | CronJob ids, upserts, deletions and the reconcile |
| `Watcher.dfy` | Job and Pod handlers, the run index, recovery at startup |
| `Timestamps.dfy` | the stored text layout, its order, the page cursor and its parser |
| `Paging.dfy` | the page query and a consumer that follows the cursor |
| `Migrations.dfy` | which migrations run, in which order, and failed opens |

## What does not hold

Each of these is a lemma with a concrete case, beside the condition under which the promise is kept.

* The comment in `handlers_sse.go` promises no duplicates between replay and live lines. A line can
  be sent twice (`DuplicatePossible`), up to 264 of them (`OverlapBounded`, `OverlapAttained`). When
  the replay is read it is settled which, whatever streamers start later: a replayed line can come again
  if and only if it is queued, or still to be published to a registered viewer (`CanRepeatIff`,
  `RepeatedIff`).
* There is no gap for a viewer whose replay was read and who stays registered (`NoGap`, an
  equivalence). The handler ignores a failed read of the history; `CoveredIff` says what is left then.
* `Stream` drops its guard entry before it closes the channels, so a late close can cut off a viewer
  (`LateCloseSilences`); with no further streamer started it can if and only if a newer one is at work at
  the close (`CloseCutsOffIff`), and the rows it misses are exactly those of `AfterCloseIff`.
* The handlers promise not to capture a log twice, by looking at its size first. The look, the guard and
  the flush are separate steps, so it can be (`CapturedTwice`), and a failed size update is enough
  (`FailedSizeCapturesTwice`); a further capture can write the log if
  and only if one is at work that has not written yet, a handler has decided on one, or the size still
  reads zero (`CanWriteAgainIff`).
* `PrevRun` is the most recent occurrence if and only if the deciding window is within the probe cap
  (`PrevRunIsLatestIff`); a schedule such as `* * 1-2 * *` asked mid-month is cut short, and a silent
  job then goes unreported (`ClippedSearchFallsShort`, `ClippedVerdictMisleads`). The verdict itself is
  characterised with the cap included, for every schedule and instant (`MissedIff`,
  `NeverRanMissedIff`): a silent job is reported if and only if fewer occurrences than the cap lie
  between the start of the deciding window and its last run (`DeadJobReportedIff`).
* The grace period does not excuse an occurrence that a later one has already followed
  (`MissedIffUncovered`, `DenseMissedInsideGrace`, `EveryMinuteMissedInsideGrace`).
* Text order is time order at one offset only (`TextOrderAcrossOffsetsIff`,
  `TextOrderFailsAcrossOffsets`).
* A cursor of a process in a zone of offset 0 comes back in UTC. If the zone's name sorts before "UTC",
  as GMT does, the cursor selects the last row again (`CursorSelectsOlderIff`): pages repeat runs
  (`NothingTwiceIff`), and with one run a page the walk never advances (`GmtNeverAdvances`).
* The cursor keeps the offset if and only if it is a whole number of minutes (`CursorRoundTrip`).
* Paging skips a run that ties with the last row of a full page it did not make
  (`WalkSkipsOnlyTies`).
* `expired` is exact with successful writes (`ExpiredIsExact`, and `ExpiredExactIff` in general); a
  failed insert whose size update succeeds is reported as expired (`ExpiredWithoutCapture`), and the
  converse hides a real loss (`LostWithoutExpiry`).
* The run index can go stale. A new Job keeps it right if and only if its run can be recorded
  (`AddKeepsIndexIff`, `MissingParentLeavesStaleEntry`), a backfill if and only if the index does not
  know the run or nothing is recorded (`BackfillKeepsIndexIff`), a retention pass if and only if no
  indexed run is older than its cutoff (`RetentionKeepsIndexIff`). A pod event can meet another Job's run
  if and only if that is indexed under the name, or none is and it is running under it
  (`FindsAnotherIff`, `SecondEndHitsAnotherIff`); with one Job added in between, the end of a pod is
  recorded on the right run if and only if that Job has another name or is the same one
  (`RightRunEndsIff`, `SameNameElsewhere`): names are unique within a namespace only.
* The reconcile compares with a snapshot taken earlier, so a CronJob that arrives in between is
  marked deleted until its next event (`LateArrivalIsMarked`).
* After a restart a run that goes on keeps exit code -1 until it ends (`RecoveredRunKeepsMark`), and
  a triggered one, whose Job has no owner, is left as failed (`TriggeredRunIsNotRecovered`).

## Model

| member | source | states |
|---|---|---|
| RateLimiter.IpRateLimiter.Allow | internal/api/rate_limiter.go:31-45 | the in-place update is one step of the bucket machine, with its verdict |
| RateLimiter.TraceExplained | internal/api/rate_limiter.go:31-45 | every bucket counts exactly the admissions of its address since it opened, in every trace |
| RateLimiter.SlidingWindowBound | internal/api/rate_limiter.go:31-45 | no closed interval as long as the window holds more than 2*max(limit,1)-1 admissions of one address |
| RateLimiter.BoundAttained | internal/api/rate_limiter.go:31-45 | that bound is reached for every limit and window of at least 1, so it is tight |
| RateLimiter.RefusalEarned | internal/api/rate_limiter.go:40-42 | a refusal means `limit` admissions within the window that ends at the refused call |
| RateLimiter.Independent | internal/api/rate_limiter.go:31-45 | what an address is granted does not depend on the other addresses |
| Schedule.Walk | internal/schedule/next.go:158-171 | the loop returns the last occurrence its probes reach |
| Schedule.WalkReachesNth | internal/schedule/next.go:158-171 | that is the min(count, probes)-th occurrence of the window |
| Schedule.EstimateCadence | internal/schedule/next.go:145-155 | the gap between the next two occurrences, or the look-back, positive and within a Duration |
| Schedule.PrevRun | internal/schedule/next.go:112-140 | the widening search, terminating and free of 64-bit overflow |
| Schedule.PrevRunExactly | internal/schedule/next.go:112-155 | for every schedule and instant, in terms of the occurrences alone: of the windows of twice the gap ahead (the look-back if there is none), at least an hour, widened fourfold up to the look-back, the answer is the last of the first 2000 occurrences in the first window that holds any |
| Schedule.PrevRunInFirstWindow | internal/schedule/next.go:112-155 | if the window of twice the gap between the next two occurrences, at least an hour, fits the look-back and holds 1 to 2000 occurrences, the answer is the most recent one |
| Schedule.Widen | internal/schedule/next.go:127-139 | the window loop answers from the first window that holds an occurrence |
| Schedule.AtMostEightWalks | internal/schedule/next.go:127-138 | the search walks at most eight windows |
| Schedule.PrevRunFinds | internal/schedule/next.go:112-140 | it fails exactly when nothing fired within the look-back, and otherwise answers with an occurrence inside it |
| Schedule.PrevRunIsLatestIff | internal/schedule/next.go:90-140 | it is the greatest occurrence not after now if and only if the deciding window is within the probe cap; then nothing lies between it and NextRun |
| Schedule.DecidingWindowIsFirstFiring | internal/schedule/next.go:118-138 | the deciding window is the first of the clamped fourfold windows in which anything fired, whatever the cap |
| Schedule.ModerateGapsUnclipped | internal/schedule/next.go:84-140 | it is exact at every instant for every schedule whose gaps are moderate against the cap |
| Schedule.PeriodicPrevRun | internal/schedule/next.go:90-140 | for a periodic schedule it is the one occurrence of the period that ends now |
| Schedule.NextRuns | internal/schedule/next.go:56-68 | the i-th result is the (i+1)-th occurrence after `after`, as long as the library goes on |
| Schedule.AfterGivingUp | internal/schedule/next.go:62-66 | each result is the first occurrence after the one before it, or the zero time where the library finds none |
| Schedule.AnswerIsAfterIff | internal/schedule/next.go:112-171 | what PrevRun finds is after an instant iff something fired since and fewer occurrences of the window than the cap are up to it |
| Schedule.MissedIff | internal/schedule/next.go:205-246 | for every schedule and instant: missed iff not suspended, not running, the schedule resolves, an occurrence came after the last run up to the instant judged, and fewer than the cap lie in the window up to the last run |
| Schedule.ResolvesIff | internal/schedule/next.go:205-240 | a schedule resolves iff it fired within the look-back of now and of the instant judged |
| Schedule.MissedIffUncovered | internal/schedule/next.go:205-246 | where the cap bites on neither search: missed iff not suspended, not running, some occurrence is there to judge, and one after the last run is older than the grace period or already followed by another |
| Schedule.NeverRanMissedIff | internal/schedule/next.go:205-246 | without a last run, for every schedule and instant: missed iff it fired within the look-back, and not within the grace period or as often as the cap before it |
| Schedule.SparseMissedIff | internal/schedule/next.go:205-246 | for gaps beyond the grace period: missed iff the schedule resolves, an occurrence older than the grace period came after the last run, and fewer than the cap lie in the window up to it |
| Schedule.DeadJobReportedIff | internal/schedule/next.go:214-245 | a job with an unserved occurrence to judge and no gap beyond the look-back is reported iff fewer occurrences than the cap lie in the deciding window up to its last run |
| Schedule.DeadJobStaysReported | internal/schedule/next.go:214-245 | where the cap does not bite, a job is reported at every instant from the second missed occurrence on, whatever the phase of the grace period |
| Schedule.MissedIsStable | internal/schedule/next.go:205-246 | a missed verdict is not taken back without a new run at any later instant at which the schedule resolves and the cap does not bite |
| Schedule.ModerateGapsJudgeable | internal/schedule/next.go:205-246 | the hypotheses of the verdict theorems hold at every instant for moderate gaps |
| Schedule.DenseMissedInsideGrace | internal/schedule/next.go:214-240 | a per-minute job is reported although every unserved occurrence is within the grace period |
| Schedule.EveryMinuteMissedInsideGrace | internal/schedule/next.go:214-240 | the same of `* * * * *` itself |
| Schedule.ClippedSearchFallsShort | internal/schedule/next.go:86-88 | a concrete schedule on which the probe cap makes the answer hours too old |
| Schedule.ClippedVerdictMisleads | internal/schedule/next.go:205-246 | and on which a silent job is therefore not reported; MissedIff is the exact condition |
| Broadcaster.StepKeepsInv | internal/streamer/broadcaster.go:25-94 | registered channels are distinct and exactly the open ones, no list is empty, nothing panics, at every step of every goroutine |
| Broadcaster.RunIsSafe | internal/streamer/broadcaster.go:54-87 | no interleaving sends on a closed channel or closes one twice |
| Broadcaster.ActiveIsKeyPresence | internal/streamer/broadcaster.go:90-94 | IsActive is the presence of the map key |
| Broadcaster.DeliveryIsFifo | internal/streamer/broadcaster.go:63-74 | what was read plus what is queued is exactly the offers that found fewer than 64 unread lines, in order |
| Broadcaster.OfferedOnce | internal/streamer/broadcaster.go:63-74 | every publication that began while a channel was registered is offered to it exactly once, or still has to be |
| Broadcaster.OfferedInOrder | internal/streamer/broadcaster.go:63-74 | when the calls that reach a channel do not overlap, whatever those of other runs do, the offers come in the order of publication |
| Broadcaster.ReceivedInOrder | internal/streamer/broadcaster.go:54-74 | what a subscriber has read is then a subsequence, in order, of the lines published while it was registered |
| Broadcaster.PublishIsItsSteps | internal/streamer/broadcaster.go:63-74 | an undisturbed Publish is the sequence of its sends in the interleaved machine |
| Broadcaster.Broadcaster.Subscribe | internal/streamer/broadcaster.go:25-30 | registers a new open channel; keeps the invariant |
| Broadcaster.SubscribeEffect | internal/streamer/broadcaster.go:25-30 | one new channel, open and empty, at the end of the run's list; no other list or channel changes |
| Broadcaster.Broadcaster.Unsub | internal/streamer/broadcaster.go:32-49 | removes and closes the channel once; a repeated call changes nothing |
| Broadcaster.UnsubEffect | internal/streamer/broadcaster.go:32-49 | the channel is closed with its queue kept and is the only one to leave the list; the entry goes with its last channel; a repeated call changes nothing |
| Broadcaster.Broadcaster.Publish | internal/streamer/broadcaster.go:63-74 | offers the line to every channel of the run without blocking |
| Broadcaster.PublishEffect | internal/streamer/broadcaster.go:63-74 | the line is appended to exactly the channels of the run that hold fewer than 64 |
| Broadcaster.Broadcaster.Close | internal/streamer/broadcaster.go:79-87 | closes every channel of the run and drops its entry |
| Broadcaster.CloseEffect | internal/streamer/broadcaster.go:79-87 | every channel of the run is closed with its queue kept, the entry is gone, and no other list or channel changes |
| Broadcaster.ClosedForGood | internal/streamer/broadcaster.go:37-87 | in every interleaving, a channel registered at a Close of its run, or left by its subscriber, is closed and in no list at every later point |
| Broadcaster.Broadcaster.IsActive | internal/streamer/broadcaster.go:90-94 | active exactly when the run has an entry |
| LiveLogs.GuardHolds | internal/streamer/logstream.go:58-77 | at most one streamer of a run is past its guard and not yet leaving |
| LiveLogs.QueueKept | internal/streamer/logstream.go:99-159 | what is inserted and not yet published is the end of what was flushed, at most one batch |
| LiveLogs.ReadIsFlushed | internal/streamer/logstream.go:147-167 | in every interleaving, whenever no streamer is at work, every line that any of them has read has been flushed and its publication is over |
| LiveLogs.InsertEffect | internal/streamer/logstream.go:99-105 | an insert that goes through stores exactly the lines of its batch, one that fails stores none; both leave them to be published |
| LiveLogs.StepKeepsInv | internal/api/handlers_sse.go:109-143 | the protocol invariant survives every step of every goroutine |
| LiveLogs.CoveredIff | internal/api/handlers_sse.go:109-143 | a stored row is replayed, cut, delivered or dropped iff it was flushed before a successful reading, queued at it, or published after it while registered; failed readings included |
| LiveLogs.NoGap | internal/api/handlers_sse.go:109-143 | with a successful reading: iff it was flushed before the reading or published while registered |
| LiveLogs.NoGapWhileRegistered | internal/api/handlers_sse.go:109-143 | for a registered viewer whose replay was read only one unpublished batch is outstanding, and a log of up to 5000 lines is not cut |
| LiveLogs.InOrder | internal/api/handlers_sse.go:109-143 | replay and live part are each in row order, and what was dropped was not delivered |
| LiveLogs.SubscribedBeforeReading | internal/api/handlers_sse.go:109-114 | the replay is never read before the viewer has subscribed |
| LiveLogs.TailCutsOldest | internal/api/handlers_sse.go:113-118 | the replay holds the last 5000 stored rows, or all of them; what is cut is older than all of it |
| LiveLogs.LeaveEffect | internal/api/handlers_sse.go:110-111 | a viewer that has left is never registered again and hears nothing |
| LiveLogs.OverlapBounded | internal/api/handlers_sse.go:64-65 | at most 264 lines are sent twice |
| LiveLogs.OverlapAttained | internal/api/handlers_sse.go:64-65 | some interleaving sends exactly 264 lines twice |
| LiveLogs.RepeatedIff | internal/api/handlers_sse.go:64-65 | a replayed line comes again iff it was queued at the reading, or published since and not dropped |
| LiveLogs.CanRepeatIff | internal/api/handlers_sse.go:64-65 | at the reading: some way of going on, new streamers included, sends a line twice iff it is replayed and queued, or replayed and still to be published to a registered viewer |
| LiveLogs.DuplicatePossible | internal/api/handlers_sse.go:64-65 | the promise of no duplicates fails on a concrete interleaving |
| LiveLogs.AfterCloseIff | internal/streamer/logstream.go:68-74 | for a viewer cut off by a close, before or after its replay is read, a stored row is covered iff flushed before the reading or published before the close |
| LiveLogs.CloseCutsOffIff | internal/streamer/logstream.go:68-74 | a close can cost the viewer a row, with no further streamer started, iff a newer streamer is at work at the close |
| LiveLogs.LastCloseServesAll | internal/streamer/logstream.go:68-74 | when the last streamer closes the run and none starts, a viewer registered until then is served every stored row once its replay is read |
| CaptureOnce.CanStartIff | internal/watcher/pod.go:132-135 | another capture can start iff a handler has decided on one or the size still reads zero |
| CaptureOnce.MoreStartsBounded | internal/watcher/pod.go:132-135 | once anything is accounted for, no more captures start than handlers had decided |
| CaptureOnce.CanWriteAgainIff | internal/streamer/logstream.go:58-108 | a further capture can write the log iff one at work has not written, a handler has decided on one, or the size still reads zero |
| CaptureOnce.CapturedOnce | internal/watcher/job.go:179-183 | if every handler asks right after it has looked and every size update goes through, at most one capture writes |
| CaptureOnce.CapturedTwice | internal/watcher/pod.go:132-135 | a concrete interleaving of two handlers that captures the log twice |
| CaptureOnce.FailedSizeCapturesTwice | internal/streamer/logstream.go:103-108 | even handlers that ask right after they have looked capture a log twice when a size update fails |
| CaptureOnce.CallEffect | internal/streamer/logstream.go:58-67 | asking uses up the decision, and starts a capture iff none is at work |
| CaptureOnce.WritesCount | internal/streamer/logstream.go:103-108 | what the two writes of a flush come to, for every pair of failures |
| LiveLogs.LateCloseSilences | internal/streamer/logstream.go:69-74 | a late close cuts off a viewer of the next streamer |
| StreamHandler.StreamLogs | internal/api/handlers_sse.go:69-164 | the whole reply: errors, the finished case, and the followed stream up to the first case that ends it |
| StreamHandler.Follow | internal/api/handlers_sse.go:132-163 | the select loop stops at the first ending case and never reads a closed channel again |
| StreamHandler.ClientGetsHistoryThenLive | internal/api/handlers_sse.go:112-143 | the data is the replay and then every line received, in order, nothing else |
| StreamHandler.DoneIsLast | internal/api/handlers_sse.go:145-162 | done is written once and last, and only on a tick with a final status or five seconds after the close |
| StreamHandler.ClientGetsStatuses | internal/api/handlers_sse.go:145-161 | the statuses written are the running one at the start and then those the ticks have read, in order, the last one included |
| StreamHandler.EndsIff | internal/api/handlers_sse.go:145-161 | a case ends the stream iff the client left, or a tick reads a final status, or it reads any status more than five seconds after the close |
| StreamHandler.CloseBoundsTheStream | internal/api/handlers_sse.go:124-157 | once the log stream has closed, the loop goes no further than the first readable tick more than five seconds later, and has written done unless the client left |
| LogStream.Capture.Flush | internal/streamer/logstream.go:99-114 | inserts, accounts, publishes line by line and resets; nothing on an empty batch |
| LogStream.Capture.StreamLogs | internal/streamer/logstream.go:145-167 | after any events the lines published are exactly those that are due, and with successful writes so are those stored |
| LogStream.Conservation | internal/streamer/logstream.go:93-167 | once the stream has ended the flushes hold the cleaned lines in order, each once, account for the length plus one of each, and hold 1 to 200 lines |
| LogStream.OnlyTheTailWaits | internal/streamer/logstream.go:145-167 | at every moment fewer than 200 of the last lines are unflushed |
| LogStream.FlushedExactly | internal/streamer/logstream.go:147-167 | at every moment what waits is what the lines since the last tick leave over in batches of 200, and nothing after a stop; all before is flushed, cleaned, in order, with its bytes |
| LogStream.TickFlushesAll | internal/streamer/logstream.go:161-162 | after a tick everything read is flushed |
| LogStream.OnlyLaterLinesWait | internal/streamer/logstream.go:147-167 | whatever follows a tick, only lines read after it can wait |
| LogStream.StoredWhenDue | internal/streamer/logstream.go:147-167 | with successful writes the store holds exactly the lines that are due, at every moment |
| LogStream.StoredExactly | internal/streamer/logstream.go:103-108 | for any failures, lines grow by the batches inserted and size by those accounted for, and nothing else in the store moves |
| LogStream.CapturedExactly | internal/streamer/logstream.go:93-167 | with successful writes the run gains exactly its cleaned lines and their bytes |
| LogStream.WithLogLines | internal/storage/queries.go:598-626 | appended rows are read back by their own run and by no other |
| LogStream.NothingWithoutRow | internal/storage/queries.go:598-626 | a run without a row keeps none of its log |
| LogStream.StopsForGood | internal/streamer/logstream.go:148-166 | nothing after the stop has an effect |
| Store.SQLiteStore.Exec | internal/storage/queries.go:187-200 | one statement takes its full effect or none; it fails on a missing parent, a taken name, or an outside fault |
| Store.SQLiteStore.BatchInsertLogLines | internal/storage/queries.go:598-626 | a batch is inserted whole and in order, or not at all |
| Store.IntegrityAlways | internal/storage/db.go:114-117 | under every sequence of statements and failures, runs, CronJobs and log lines have their parents |
| Store.AcceptedIff | internal/storage/db.go:114-117 | where parents exist and names are unique, a statement is refused iff its effect would leave a row without its parent or two CronJobs of one name |
| Store.UpsertedRunColumns | internal/storage/queries.go:187-200 | an upsert writes the columns given and keeps end time, exit code, restarts and log size of a known run; no other row changes |
| Store.UpdatedRunColumns | internal/storage/queries.go:500-579 | what each update writes in the row of its run, column by column, and that nothing else changes |
| Store.CronJobColumns | internal/storage/queries.go:98-173 | an upsert stores the new spec and revives, and keeps the names of a known CronJob; a mark changes nothing but the time |
| Store.ClusterColumns | internal/storage/queries.go:18-76 | an upsert stores the name and revives; a mark keeps the names and the clusters to keep, and with none to keep changes nothing |
| Store.PurgeIsSafe | internal/storage/queries.go:730-742 | a purge removes no run, no line and no live CronJob: its cascade never fires |
| Store.DeletedAtIsFirstMark | internal/storage/queries.go:96-121 | deleted_at is the time of the first mark since the last revival, over every history |
| Store.ClusterDeletedAtIsFirstMark | internal/storage/queries.go:16-76 | a cluster is marked when missing from a non-empty keep list; deleted_at is the first such time since its last upsert |
| Store.OfWithout | internal/storage/queries.go:722-728 | deleting the lines of some runs leaves those of the others as they were |
| Retention.RunRetention | internal/storage/retention.go:32-60 | the pass, with each delete free to fail: newer runs are untouched and a purged CronJob had aged out in any case |
| Retention.PassSweeps | internal/storage/retention.go:32-60 | after a pass exactly the runs from the cutoff on remain, lines of runs older than either cutoff are gone, and a CronJob is gone iff deleted and all its runs are before the cutoff |
| RunLogs.GetLogLinesTail | internal/storage/queries.go:650-676 | the last `limit` lines of the run in order, or all of them |
| RunLogs.GetLogsV1 | internal/api/handlers_v1.go:549-582 | a suffix of the log; truncated whenever lines were cut, and falsely only when exactly `limit` are held |
| RunLogs.HeldIsTheEnd | internal/storage/queries.go:573-579 | over every history, what is held is the end of what was captured since the row was created, and the size is what was accounted for since |
| RunLogs.ExpiredIsExact | internal/api/handlers_v1.go:563-582 | with successful writes, expired iff something was captured and nothing is held |
| RunLogs.ExpiredExactIff | internal/api/handlers_v1.go:563-582 | with failing writes, exact iff lines are held or inserts and size updates have landed alike |
| RunLogs.ExpiredWithoutCapture | internal/streamer/logstream.go:103-108 | expired although nothing was captured, on a concrete history |
| RunLogs.LostWithoutExpiry | internal/streamer/logstream.go:103-108 | not expired although everything was lost, on a concrete history |
| CronJobs.SplitIdRoundTrip | internal/api/handlers_v1.go:427-440 | splitting a CronJob id gives back its parts |
| CronJobs.SplitIdShort | internal/api/handlers_v1.go:424-440 | an id with fewer parts fills them from the front |
| CronJobs.IdInjective | internal/watcher/cronjob.go:105-108 | within a cluster no two CronJobs share an id |
| CronJobs.KeysAlways | internal/watcher/cronjob.go:111-145 | every stored CronJob is keyed by its own cluster, namespace and name |
| CronJobs.NameHasOneId | internal/watcher/cronjob.go:105-122 | over every history no id but the computed one holds a CronJob's name |
| CronJobs.CronJobHandler.OnAdd | internal/watcher/cronjob.go:30-45 | upserts the CronJob under its computed id |
| CronJobs.CronJobHandler.OnDelete | internal/watcher/cronjob.go:49-63 | marks the deleted CronJob, also from a tombstone; anything else changes nothing |
| CronJobs.DeletedName | internal/watcher/cronjob.go:49-63 | a tombstone counts as the CronJob that it wraps |
| CronJobs.CronJobHandler.ListCronJobs | internal/storage/queries.go:125-145 | exactly the live rows of the cluster, each once |
| CronJobs.CronJobHandler.Reconcile | internal/watcher/cronjob.go:69-92 | marks exactly the listed and absent CronJobs whose statement does not fail |
| CronJobs.ReconcileIsExact | internal/watcher/cronjob.go:64-92 | live afterwards iff live before and present; other clusters and earlier deletions keep their rows |
| CronJobs.ReconciledRow | internal/watcher/cronjob.go:69-103 | each row afterwards: stamped with its time iff live, of this cluster, not listed and without a fault; otherwise as it was |
| CronJobs.LateArrivalIsMarked | internal/watcher/controller.go:104-117 | a CronJob that appears between snapshot and listing is marked, until its next event |
| Watcher.RunIndex.Set | internal/watcher/run_index.go:19-23 | maps the Job name to the run |
| Watcher.RunIndex.Get | internal/watcher/run_index.go:26-31 | the run of the Job name, or the empty string |
| Watcher.RunIndex.Delete | internal/watcher/run_index.go:34-38 | removes the Job name |
| Watcher.JobHandler.OnAdd | internal/watcher/job.go:41-91 | the row and index effects for owned, unowned, finished and running Jobs, with failures |
| Watcher.AddedRow | internal/watcher/job.go:43-91 | the row of a new Job column by column, its CronJob by its spelled id, what a known run keeps, and the index entry |
| Watcher.DoneIff | internal/watcher/job.go:236-247 | a Job is done iff it has a completion time or a true condition that says complete or failed |
| Watcher.JobHandler.BackfillRun | internal/watcher/job.go:95-184 | the whole row of a backfilled run, and none of it when it had succeeded or the upsert fails |
| Watcher.BackfilledColumns | internal/watcher/job.go:95-178 | start time, status, end time, exit code and the other columns of a backfilled run, from the Job and its pod |
| Watcher.AddedNothing | internal/watcher/job.go:43-113 | a Job without an owner, and a backfill of a run that had succeeded, change nothing |
| Watcher.JobHandler.OnDelete | internal/watcher/job.go:191-207 | a run still running is marked failed; the index entry goes in any case |
| Watcher.DeletedEndsRun | internal/watcher/job.go:191-207 | the row of a running run is failed, ended now with exit code -1; every other row, and every other index entry, stays |
| Watcher.PodHandler.FindRunID | internal/watcher/pod.go:192-207 | the index entry, or else some running row of that Job |
| Watcher.PodHandler.OnUpdate | internal/watcher/pod.go:90-187 | a final phase ends the looked-up run and drops its index entry |
| Watcher.EndIsRecorded | internal/watcher/pod.go:142-187 | status, end time, exit code and restarts each go in their own column of the row; every other column stays |
| Watcher.NothingEnds | internal/watcher/pod.go:109-187 | any other phase, a run not found and a failing statement leave every row as it was |
| Watcher.StepKeepsIndex | internal/watcher/pod.go:189-207 | each event leaves every index entry naming a running row of its Job |
| Watcher.IndexAlwaysSound | internal/watcher/run_index.go:5-10 | so does every run of Job, Pod and trigger events |
| Watcher.LookupAgreesWithScan | internal/watcher/pod.go:189-207 | in every such run the lookup equals the database scan |
| Watcher.AddKeepsIndexIff | internal/watcher/job.go:82-90 | a new Job keeps the index right iff its upsert lands (no fault, CronJob on record) or it is already running under its name |
| Watcher.BackfillKeepsIndexIff | internal/watcher/job.go:95-145 | a backfill keeps the index right iff the index does not know the run or nothing is recorded |
| Watcher.RetentionKeepsIndexIff | internal/storage/queries.go:717-720 | a retention pass keeps the index right iff no indexed run started before its cutoff |
| Watcher.RightRunEndsIff | internal/watcher/pod.go:104-207 | the end of a pod is recorded on its own Job's run iff the Job added in between has another name or is the same Job |
| Watcher.FindsAnotherIff | internal/watcher/pod.go:192-207 | in any world a lookup can give a run that is not the Job's own iff another is indexed under the name, or none is and another row is running under it |
| Watcher.OnlyFoundRunEnds | internal/watcher/pod.go:145-186 | a final event ends the run the lookup gave and touches no other |
| Watcher.SecondEndHitsAnotherIff | internal/watcher/pod.go:145-207 | a second final event of a pod can end another run iff another row is running under the name |
| Watcher.MissingParentLeavesStaleEntry | internal/watcher/job.go:82-90 | without the parent the lookup finds a run that does not exist; AddKeepsIndexIff is the exact condition |
| Watcher.SameNameElsewhere | internal/watcher/pod.go:189-207 | two Jobs of one name in two namespaces: the end of one is recorded on the other; RightRunEndsIff is the exact condition |
| Watcher.MarkStaleRuns | cmd/kubecron/main.go:91-100 | every running row is marked failed, unless its statement fails |
| Watcher.Startup | cmd/kubecron/main.go:91-120 | marking comes first, then the initial list through the Job handler |
| Watcher.RestartRecovery | cmd/kubecron/main.go:91-100 | with one cluster: running after a restart iff an unfinished Job of a CronJob on record |
| Watcher.FleetRecovery | cmd/kubecron/main.go:91-126 | the same with several clusters listing into one store, each with its own index |
| Watcher.RestartStatuses | internal/watcher/job.go:95-145 | finished Jobs get the status of their conditions, succeeded rows are untouched |
| Watcher.RecoveredRunKeepsMark | internal/storage/queries.go:187-200 | a run that goes on keeps the end time and exit code of the mark |
| Watcher.TriggeredRunIsNotRecovered | internal/api/handlers_cronjob.go:164-193 | a triggered run that goes on is left as failed |
| Watcher.TriggeredRow | internal/api/handlers_cronjob.go:181-193 | a trigger records a manual running run, started now, iff its CronJob is on record, and leaves the index alone |
| Timestamps.TextOrderIsTimeOrder | internal/storage/queries.go:437-463 | at one offset the stored texts compare as the instants do, whatever the fractions |
| Timestamps.TextOrderIsWallOrder | internal/storage/queries.go:437-463 | stored texts compare by wall clock and then by what follows |
| Timestamps.StoredTextSpelled | internal/storage/queries.go:437-448 | how stored times read, east and west, with and without a monotonic reading |
| Timestamps.TextOrderAcrossOffsetsIff | internal/storage/queries.go:437-463 | across offsets the order is right iff the runs are further apart than the offset fell, or just as far and their zone texts are in order |
| Timestamps.TextOrderFailsAcrossOffsets | internal/storage/queries.go:437-463 | a concrete pair around the end of summer time that sorts the wrong way |
| Cursor.CursorRoundTrip | internal/api/handlers_runs.go:432-463 | parsing a cursor gives the same instant and offset iff the offset is whole minutes |
| Cursor.DamagedCursorRoundTrip | internal/api/handlers_runs.go:455-461 | a cursor whose plus became a space parses to the same result |
| Cursor.WallReadBack | internal/api/handlers_runs.go:432-454 | the printed wall clock is read back at full precision |
| Cursor.AcceptedIsReal | internal/api/handlers_runs.go:447-463 | whatever text is accepted as a cursor names a real time, whose own cursor parses to the same |
| Cursor.CursorSpelled | internal/api/handlers_runs.go:432-434 | how cursors read, east, west and in UTC |
| Paging.ListJobRunsPaged | internal/storage/queries.go:449-478 | a page is the newest eligible rows, newest first, by text |
| Paging.Collect | internal/storage/queries.go:466-477 | rows come one by one in a total order up to the limit |
| Paging.ClampLimit | internal/api/handlers_v1.go:611-623 | the limit of a page for every input: as asked, the default, or the cap |
| Paging.RunLimitInRange | internal/api/handlers_v1.go:326 | a page of runs has a limit of 1 to 1000, so the walk theorems apply to every request |
| Paging.PageInOrder | internal/storage/queries.go:437-478 | by text is by instant |
| Paging.CursorResolves | internal/api/handlers_runs.go:436-454 | a page's cursor comes back with the row's wall clock, in the zone of the process, or in UTC if that has offset 0 |
| Paging.CursorSelects | internal/api/handlers_v1.go:343-348 | what it selects in every zone of whole minutes: the older runs, and in a zone of offset 0 below UTC also those that tie |
| Paging.CursorSelectsOlderIff | internal/api/handlers_v1.go:343-348 | it selects exactly the older runs iff the zone has another offset than 0 or a name that does not sort before UTC |
| Paging.RequestsSelect | internal/api/handlers_v1.go:326-348 | what request after request selects, in every zone of whole minutes |
| Paging.WalkReaches | internal/api/handlers_v1.go:326-348 | where cursors select the older runs, the requests page through the history of the first one, even if newer runs are inserted in between |
| Paging.RequestsBounded | internal/api/handlers_v1.go:326-348 | a consumer sees no run twice and makes at most floor(n/limit)+1 requests, however long it follows the cursors |
| Paging.WalkCovers | internal/api/handlers_v1.go:326-348 | a walk misses exactly the skipped ties |
| Paging.WalkSkipsOnlyTies | internal/api/handlers_v1.go:326-348 | the requests of a consumer repeat nothing, are in order, and miss exactly the skipped ties |
| Paging.WalkIsComplete | internal/api/handlers_v1.go:326-348 | with distinct start times they yield the whole history once, in floor(n/limit)+1 requests |
| Paging.NothingTwiceIff | internal/api/handlers_runs.go:436-454 | over an unchanged table a consumer of two pages or more sees nothing twice iff the zone is not one of offset 0 below UTC |
| Paging.GmtNeverAdvances | internal/api/handlers_runs.go:436-454 | in GMT with one run a page, every page is the newest run again and carries a cursor |
| Migrations.UpFiles | internal/storage/db.go:138-152 | the up-migrations of the directory, each once, sorted by name |
| Migrations.IsUpSpelled | internal/storage/db.go:144-149 | only files named *.up.sql run: no directory and no down-migration |
| Migrations.Database.RunMigrations | internal/storage/db.go:128-201 | one open over the directory, up to the first failure |
| Migrations.Database.ApplyAll | internal/storage/db.go:154-200 | skip, record or execute each file in its own transaction |
| Migrations.ExecutedExactly | internal/storage/db.go:154-200 | after any failed opens the texts executed are those of the files on record, each once and in order, without the empty ones and the placeholders |
| Migrations.SuccessRunsAll | internal/storage/db.go:154-201 | after an open that succeeds a text has been executed iff it is that of a file and neither empty nor the placeholder |
| Migrations.CommentedScriptRuns | internal/storage/db.go:171-178 | a script that merely begins with a comment is executed |
| Migrations.OpenSucceedsIff | internal/storage/db.go:154-201 | an open succeeds iff no file stops it: one on record only by its check, a placeholder also by reading or recording it, any other by every fault |
| Migrations.AppliedInOrder | internal/storage/db.go:154-200 | after any failed opens, a prefix of the files is recorded and executed in order |
| Migrations.NothingRepeats | internal/storage/db.go:157-164 | no migration is recorded twice |
| Migrations.SuccessIsComplete | internal/storage/db.go:154-201 | an open that succeeds has applied every file, and a further one changes nothing |
| Migrations.FailureLeavesNoTrace | internal/storage/db.go:180-198 | a failed step leaves no trace of itself or of later files |
| Migrations.UpgradeGoesOn | internal/storage/db.go:154-201 | opens of one release and then of one with more files apply a prefix of the longer list in order, and all of it once an open succeeds |
| Migrations.NothingRepeatsAcrossReleases | internal/storage/db.go:157-164 | over any releases nothing is recorded twice and nothing is taken back |

## Left out

- Cron expressions, time zones and daylight saving inside the cron library: a schedule is a set of instants with its forward-only Next, which is required to return the first one. `@every` schedules, whose Next depends on the starting instant, are excluded.
- Overflow of `now + window` in the rate limiter and of instants in general: instants are unbounded; durations in the schedule search are 64-bit.
- Schedule.DeadJobStaysReported: assumes that the probe cap bites on neither search, because with the cap the claim is false (ClippedVerdictMisleads); MissedIff and DeadJobReportedIff have no such assumption.
- Schedule.MissedIsStable: assumes the same of the later instant, for the same reason.
- Schedule.MissedIffUncovered: assumes the same, and is MissedIff read in plain words.
- Times in the store, retention cutoffs included, are instants there; that text comparison agrees with them is proved in Timestamps for one offset. The calendar arithmetic that turns days into cutoffs is a parameter.
- Lenient forms that Go's time parser also accepts for a page cursor (one-digit hours, a comma before the fraction, an offset of 24 hours or 60 minutes): a cursor handed out by the program has none of them. A run that started at Go's zero time is not modelled, whose cursor would list from the newest run.
- Paging.WalkIsComplete: assumes a process offset of whole minutes, a zone in which cursors are right (NothingTwiceIff), and a table that changes between requests only in rows not older than the last cursor; retention during a walk is not covered.
- CaptureOnce.CanWriteAgainIff: a handler that reads the size succeeds in it. The backfill takes a failed read for an empty log, which can start a further capture at any time. The deletion of a run's row, which starts its size anew, is not part of that module.
- LiveLogs: goroutines are interleaved steps on values, since the point is every interleaving; one viewer, since further ones have channels of their own; retention during a live stream is not modelled.
- Watcher.LookupAgreesWithScan: assumes successful writes, Job names unique among running rows and parents on record, because without each of them it is false (the stale-entry lemmas); several clusters sharing one store are not modelled there.
- CronJobs.CronJobHandler.Reconcile: one cluster's handler at a time; the race with its own events is LateArrivalIsMarked.
- Rows of resource samples, node and image names, durations and the metrics gauges.
- `cleanLine` is an arbitrary function; SSE framing, HTML escaping and JSON are presentation.
- The SQL engine itself: each statement has its table-level meaning, transactions are atomic, and one connection serialises them.
- Watcher.FleetRecovery: the initial lists come one cluster after the other; their handlers touch different rows.
- Kubernetes clients and informers: handlers receive abstract events, one handler at a time. The five-second retry of Pod events at startup is not modelled.
- Authentication, sessions, configuration, and fleet statistics.
