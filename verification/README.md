# Verification model of the download manager's core

This project models three protocols of the Go core and one smaller computation, and proves
properties of every run of them.

* **Crash-safe finalization** (`Names.dfy`, `Storage.dfy`, `Finalization.dfy`, `Race.dfy`). A
  finished download is moved from its work directory to its destination under a journal. The disk
  is a map from paths to files; every file-system call and every row write is one step, recorded
  in a history. A crash cuts that history anywhere, inside recovery and inside the copy fallback
  too. `Finalization.FinalizeThroughCrashes` is the main result: whatever calls fail and wherever
  the crashes fall, every durable state is safe (the complete artifact is at the staging path or
  at the journaled destination, a completed job points at it, nobody else's file is lost, the work
  directory stays whole until the commit, and a file to be replaced is in place or set aside until
  the artifact is there) and the run ends settled. `Finalization.Manager.Recover` says exactly when
  recovery completes the job. `Race.RunSections` interleaves many jobs.
* **Scheduling** (`Ranking.dfy`, `Governor.dfy`, `Scheduler.dfy`, `Queue.dfy`). The ranking is a
  strict order and the stable sort by it is unique; the governor's counters are exactly the leases;
  `Scheduler.Scheduler.Schedule` terminates, leaks no lease, arms a retry for every reservation it
  leaves behind, dispatches only the best admissible job, does dispatch it when the store answers,
  and stops only when every runnable job is refused. Everything outside the scheduler's goroutine
  (store errors and foreign writes, engine answers, dispatch outcomes, concurrent departures, the
  clock, cancellation) is read off an arbitrary script, one answer per question.
* **State synchronisation** (`Cursor.dfy`, `Events.dfy`, `Stream.dfy`, `JobState.dfy`,
  `StateSync.dfy`, `Client.dfy`). Publishers write, advance the cursor, then publish; some events
  carry a payload that no listener hears; subscribers drop events. A client opens a stream at mount,
  takes a first snapshot somewhere along it, resyncs whenever a stream tells it to, and goes on
  hearing an old stream until the effect that closes it. `StateSync.Converges` is the law of
  snapshot plus replay, and `StateSync.ConvergesExactly` shows that its condition is the exact one.
  `Client.SessionConverges` is the main result, for traces that meet it, and `Client.Session` is the
  client it speaks of. Whatever answers arrive whenever, with any drops and any publish order, a
  client that has handled every event that carries a job has exactly the server's job map if and
  only if what the last answer left and the events applied since cover that map. They always do
  when the events are applied from the answer's own cursor on, and `Client.ResumesAtCursor` says
  exactly when that is.
* **Torrent selection** (`Selection.dfy`). The selected bytes computed at the start are the bytes
  recomputed from the persisted rows at dispatch.

`Text.dfy` and `Jobs.dfy` hold strings and job states. The journal phase the code calls `failed`
is `Aborted` here, to keep it apart from the job status `Failed`.

Methods carry the code's control flow; the functions they are specified by carry the lemmas.

Where the code and its documentation differ, or a natural claim is false, the model follows the
code and the exact condition is proved:

* `internal/job/finalization.go:70-73` describes a search for the collision-renamed candidates of a
  destination. When the recorded name was not renamed but ends in a number of its own, the search
  strips that number and probes other names (`Names.ProbeOfUnrenamed`,
  `Names.ProbeMissesNumberedName`).
* A stream opened at cursor 0 against a server at 0 is not pinned to its first event
  (`Stream.StreamStartsAtCursor` gives the exact condition).
* The k-th retry delay is min(initial·2^k, max) except that the first delay is not capped
  (`Scheduler.BackoffClosedForm`).
* A Low job leads a High one for the High job's first 10 minutes exactly when it is at least 41
  minutes older (`Ranking.FortyOneIntervalsExactly`); with at most 40 it never leads at all
  (`Ranking.FortyIntervalsNeverSuffice`). One priority up it is 21 minutes for a lead of 30
  (`Ranking.TwentyOneIntervalsExactly`).
* The scheduler is not a single decision: a lease given back or a limit changed in mid-scan lets a
  worse-ranked job of the same engine go first, and nothing else does
  (`Scheduler.PassedOverMeansChange`, `Scheduler.LeaseGivenBackOvertakes`).
* A selection of zero bytes is accepted at the start and refused at dispatch
  (`Selection.StartThenDispatch`, `Selection.EmptySelectionAccepted`).
* Events of one job may be published out of write order. For every job that was ever written, whose
  writes can be compared and whose deletion, if any, is last, all snapshots lead to the server's
  view of the job if and only if no earlier write carries a newer stamp than the last, the last step is
  announced, and everything announced of the job later is strictly older
  (`StateSync.ConvergesExactly`; the client reads stamps in milliseconds, so two writes may tie).
  With growing stamps this shrinks to the announcement of the last step, a deletion as the job's
  last event (`StateSync.OrderedStampsConvergeExactly`). Only an event that carries the job
  announces a step.
* `job.network.updated` and `job.seeding_policy.updated` take a sequence number but carry a payload
  (`internal/events/sse.go:153-157`), and `web/src/transport/http.ts:556-561` listens to neither. A
  write published that way is not announced: no client hears of it before its next snapshot
  (`StateSync.PayloadLeavesUnannounced`, `Client.PayloadLoses`). The advances of
  `internal/job/manager.go:3101-3104` take a number for no event at all; here they are payloads that
  no channel delivers.
* On every trace at all, the last event of a job alone decides whether the client has it
  (`StateSync.LastEventDecides`): a deletion survives exactly when it is the job's last event.
* `web/src/App.tsx:99-108` replaces the jobs with the first snapshot whatever the stream opened at
  mount has delivered meanwhile, and asks for a new stream only for a positive cursor. At cursor
  zero everything applied so far is lost unless the listing saw it too or it is still to be
  announced (`Client.ArriveExactly` with `StateSync.ListingCovers` give the exact condition,
  `StateSync.FirstLoadLoses` a concrete loss with nothing dropped).
* The old stream is closed by an effect that runs after a later render
  (`web/src/App.tsx:197-202`), and the new one starts from the cursor the client has by then (191).
  A frame that comes in between can move the cursor past what the old stream had delivered before
  the snapshot replaced it: an event with a job, or a mere tick, which arrives under the last event
  id of its stream (`web/src/transport/http.ts:549`). The client still ends right exactly if the old
  stream was no further than the snapshot's cursor, or the snapshot and the events after the old
  stream's position cover the server's jobs (`Client.ResumesAtCursor`, `Client.ArriveExactly`).
  `Client.WindowLoses` and `Client.TickLoses` are concrete losses with nothing dropped.
* `internal/job/manager.go:4065` promises the next monotonic number. When the database refuses an
  advance the number comes from a second counter, and then numbers repeat or go back
  (`Cursor.IssuedConsecutively` gives the exact condition). The rest of the state synchronisation
  assumes that every advance gets through.
* A reordering of a lane holds exactly as long as aging does not favour the later job
  (`Queue.ReorderHonouredUntilAged`).
* A crash between the swap and the removal of the source leaves two copies. Recovery then makes
  another one under `rename` and ends failed under `fail`; `Finalization.Deliverable` has both
  cases. No claim of a single copy is made.

## Model

| member | source | states |
|---|---|---|
| Ranking.CompareTotal | internal/job/policy.go:92-180 | the dispatch comparison is antisymmetric, and only one job with itself or with an equal id ties |
| Ranking.CompareTransitive | internal/job/policy.go:92-180 | the comparison is transitive, strictly so if either step is strict |
| Ranking.RankedIsStableSort | internal/job/policy.go:182-188 | the ranking is a sorted permutation that keeps tied jobs in their old order |
| Ranking.StableSortUnique | internal/job/policy.go:182-188 | any two stable sorts of the queue are the same list, so the ranking does not depend on the sorting algorithm |
| Ranking.RankedStrict | internal/job/policy.go:182-188 | with distinct ids no two places of the ranking tie, and nothing is lost or invented |
| Ranking.RankQueuedJobs | internal/job/policy.go:184-188 | the slice is replaced in place by its ranking |
| Ranking.SelectNextRunnable | internal/job/policy.go:191-203 | the linear scan returns the first element of the ranking, or nothing for an empty queue |
| Ranking.AgingMonotoneAndBounded | internal/job/policy.go:52-66 | the aging bonus never decreases with time and stays within 0..250 by default |
| Ranking.AgingExactly | internal/job/policy.go:52-66 | a job gains the points for each whole interval waited, up to the bonus, and nothing if a parameter is not positive |
| Ranking.DefaultBonus | internal/job/policy.go:14-16 | by default that is 5 points a minute for 50 minutes |
| Ranking.PriorityNames | internal/job/policy.go:38-50 | letter case does not matter, and an unknown priority is a normal one |
| Ranking.PriorityOrder | internal/job/policy.go:38-180 | of ordinary jobs that waited equally long High goes before Normal before Low at every time, and within one priority position and id decide |
| Ranking.OrderWithoutAging | internal/job/policy.go:141-180 | without aging the priority decides whatever the ages, then position, age and id |
| Ranking.RunNowOrder | internal/job/policy.go:103-139 | Run Now jobs come first, ordered by position, request, age and id |
| Ranking.LowOvertakesHigh | internal/job/policy.go:9-76 | a Low job 41 minutes older leads a High job exactly until the High job has waited 10 minutes, and trails from then on |
| Ranking.FortyIntervalsNeverSuffice | internal/job/policy.go:9-76 | a Low job at most 40 minutes older never goes first |
| Ranking.FortyOneIntervalsExactly | internal/job/policy.go:9-76 | the Low job leads through the High job's first 10 minutes exactly when it is at least 41 minutes older |
| Ranking.TwentyOneIntervalsExactly | internal/job/policy.go:9-76 | Low against Normal and Normal against High: the lower job leads through the first 30 minutes of the higher exactly when it is at least 21 minutes older, trails afterwards, and never leads with at most 20 |
| Text.CompareStringsOrders | internal/job/policy.go:180-180 | the last tie-breaker is the lexicographic order of the ids |
| Governor.ResourceGovernor.constructor | internal/job/governor.go:74-104 | no leases, sane limits, and a limit for ytdlp in any case |
| Governor.ResourceGovernor.CanAdmit | internal/job/governor.go:128-151 | exactly when the leases are below the global limit (a positive dynamic one, else the stored one, else 3) and the engine's below its own limit, or the global one if it has none |
| Governor.ResourceGovernor.TryAcquire | internal/job/governor.go:156-187 | grants exactly then, is idempotent, adds that one lease, and a failed acquire changes nothing |
| Governor.ResourceGovernor.Release | internal/job/governor.go:191-218 | the lease and its counts go, and the clamps at zero never fire |
| Governor.ResourceGovernor.ReconstructJob | internal/job/governor.go:226-263 | records downloading and processing jobs even above the limits, once |
| Governor.ResourceGovernor.SetGlobalTransferLimit | internal/job/governor.go:303-310 | a non-positive limit means the default; leases stay |
| Governor.ResourceGovernor.SetEngineLimit | internal/job/governor.go:313-324 | a non-positive limit removes the engine's own; leases stay |
| Governor.ReconstructActive | internal/job/manager.go:198-207 | after startup the leases are exactly the transferring active jobs, whatever the limits |
| Governor.GrantCounts | internal/job/governor.go:172-179 | one more lease keeps every counter equal to the leases it counts |
| Governor.ReleaseCounts | internal/job/governor.go:203-215 | one lease less keeps every counter exact without being clamped |
| Governor.UsageNeverGrowsPastLimits | internal/job/governor.go:106-151 | over every run of acquires, releases and limit changes, usage never passes the limits and usage above them never grows |
| Governor.EngineLimitHolds | internal/job/governor.go:106-187 | an engine's own limit is kept for as long as nobody sets it, whatever happens to the global one |
| Governor.AcquireThenRelease | internal/job/governor.go:156-218 | releasing an acquired job restores the state it was acquired from |
| Queue.QueueRepository.Enqueue | internal/database/queue_repository.go:26-42 | a second enqueue replaces everything but the original enqueue time |
| Queue.QueueRepository.NextPosition | internal/database/queue_repository.go:70-81 | one more than the largest position of the lane, one for an empty lane |
| Queue.QueueRepository.Reorder | internal/database/queue_repository.go:168-189 | every listed job gets one more than the last place that lists it; nothing else of any entry changes |
| Queue.LastPlaceOf | internal/database/queue_repository.go:181-186 | a job listed last at index i ends at position i + 1 |
| Queue.ReorderHonouredUntilAged | internal/job/policy.go:92-180 | a reordering holds between two jobs of a lane exactly while aging does not favour the later one |
| Queue.NewcomerGoesLast | internal/job/policy.go:92-180 | a job at the next position, enqueued no earlier, is behind every job of its lane at all times |
| Queue.EnqueueJob | internal/job/manager.go:4121-4147 | a new job goes last in its lane for good unless every position there is negative; a job enqueued again keeps its age; an error of either repository call changes nothing |
| Queue.RunNowGoesFirst | internal/job/manager.go:3168-3222 | Run Now beats every ordinary job at all times, and earlier requests go first |
| Scheduler.ListRunnable | internal/database/queue_repository.go:85-120 | exactly the queued jobs whose entry has come of age, with their rows and entries, each once, strictly best first |
| Scheduler.SameEngineInRankOrder | internal/job/scheduler.go:426-451 | while the governor stands still, every other candidate of the chosen engine ranks after the chosen job |
| Scheduler.PassedOverMeansChange | internal/job/scheduler.go:426-451 | otherwise a better-ranked candidate of the chosen engine was passed over only if a limit changed or a lease was given back in between |
| Scheduler.LeaseGivenBackOvertakes | internal/job/scheduler.go:426-451 | which happens: with any listing of two jobs of one engine, a lease given back between their turns lets the second go first |
| Scheduler.BackoffClosedForm | internal/job/scheduler.go:221-229 | the k-th consecutive delay is min(initial·2^k, max) exactly when k > 0 or initial is within max |
| Scheduler.DrainedStrictly | internal/job/scheduler.go:395-468 | a job that leaves the pending set makes it strictly smaller, if nothing entered |
| Scheduler.Scheduler.DepartAll | internal/job/manager.go:3830-3841 | concurrent departures take exactly their leases and active jobs away and never orphan a lease |
| Scheduler.Scheduler.ReserveInFlight | internal/job/scheduler.go:296-307 | reserves exactly an unreserved job |
| Scheduler.Scheduler.MarkDirtyExternal | internal/job/scheduler.go:315-334 | leaves a dirty reservation for a running execution, keeping a known engine id |
| Scheduler.Scheduler.MarkDirtyState | internal/job/scheduler.go:336-355 | leaves a dirty reservation with the status still to be persisted |
| Scheduler.Scheduler.GiveBack | internal/job/scheduler.go:387-393 | reservation and lease are both gone, nothing else |
| Scheduler.Scheduler.ScheduleReconciliationRetry | internal/job/scheduler.go:179-230 | a live scheduler with a dirty reservation has a pending timer, armed with the delay its run of retries calls for |
| Scheduler.Scheduler.ResetReconciliationRetry | internal/job/scheduler.go:232-245 | the back-off starts over |
| Scheduler.Scheduler.ReconcileStatePersistence | internal/job/scheduler.go:541-572 | resolved means row read and status written, reservation and lease gone and a kick pending; unresolved changes no reservation; no other job is touched |
| Scheduler.Scheduler.ReconcileExternalExecution | internal/job/scheduler.go:574-709 | on a store that answers it is resolved exactly when the engine says downloading, processing, seeding or completed of an identified execution; then the job has that status (downloading for completed), is active, dequeued and keeps its lease |
| Scheduler.Scheduler.Activate | internal/job/scheduler.go:614-635 | persisted, dequeued, active and no longer reserved, or still reserved |
| Scheduler.Scheduler.ReconcileAll | internal/job/scheduler.go:509-534 | no reservation is lost unresolved, and on a store that answers every unpersisted failure of an existing job is resolved |
| Scheduler.Scheduler.DispatchFn | internal/job/manager.go:3429-3615 | called only without dirty reservations; the call is recorded; a started job is DOWNLOADING, dequeued and active, a handled one failed or paused |
| Scheduler.Scheduler.Settle | internal/job/scheduler.go:745-830 | every outcome ends with the lease given back, the job active, or a dirty reservation that remembers what to reconcile, reconciled at once if that is possible |
| Scheduler.Scheduler.DispatchSingle | internal/job/scheduler.go:711-831 | on a quiet store dispatchFn is called exactly for a job in a recoverable state whose entry still asks for the action; otherwise the lease is given back, and the entry goes exactly if the job is gone, completed, failed, cancelled or processing; no other job is touched |
| Scheduler.Scheduler.TryCandidate | internal/job/scheduler.go:427-451 | reserves exactly an unreserved candidate the governor admits |
| Scheduler.Scheduler.SelectCandidate | internal/job/scheduler.go:426-456 | every candidate before the chosen one was reserved or refused in the state it met; without a choice the whole listing was |
| Scheduler.Scheduler.SettleReservations | internal/job/scheduler.go:401-408 | a round goes on only without dirty reservations, and otherwise a retry is pending |
| Scheduler.Scheduler.ListNow | internal/job/scheduler.go:410-424 | the runnable jobs of the moment, or none when the queue cannot be read |
| Scheduler.Scheduler.DispatchChosen | internal/job/scheduler.go:458-467 | the chosen job and no other is dispatched, on a quiet store without fail; a persistence failure ends the pass with a retry or a kick pending |
| Scheduler.Scheduler.Fill | internal/job/scheduler.go:410-468 | one round ends the pass or, on a quiet store, chooses and dispatches one job and so takes it out of the pending set |
| Scheduler.Scheduler.Round | internal/job/scheduler.go:396-468 | reservations, listing, dispatch: one round as a whole |
| Scheduler.Scheduler.Schedule | internal/job/scheduler.go:395-468 | terminates; no lease leaks; dirty reservations have a pending retry; every call of dispatchFn comes right after the scan that chose its argument as the best admissible job; on a quiet store every such scan is followed by the call, and a pending job stays pending unless it was dispatched or had been reserved; saturation means every runnable job was refused |
| Names.CandidatesDistinct | internal/storage/conflict.go:136-152 | different counters give different candidate names |
| Names.CandidateShape | internal/storage/conflict.go:134-152 | a candidate is the base, the counter in parentheses after a space, and the extension |
| Names.ExtExactly | internal/storage/conflict.go:115-132 | the four known double extensions in any letter case, or else everything from the last dot on |
| Names.StripUndoesCounter | internal/job/finalization.go:82-95 | stripping undoes the counter that renaming added, whatever the base |
| Names.StripExactly | internal/job/finalization.go:82-95 | what is stripped is one counter of at least one digit at the very end, and nothing else |
| Names.ExtOfCandidate | internal/storage/conflict.go:116-132 | a candidate splits exactly where the original name did, multi-part extensions included |
| Names.ProbeUndoesRename | internal/job/finalization.go:74-105 | from any renamed destination the search probes exactly the names renaming would have tried |
| Names.ProbeOfUnrenamed | internal/job/finalization.go:74-105 | from an unrenamed destination it does so exactly when the name does not end in a number of its own |
| Names.ProbeMissesNumberedName | internal/job/finalization.go:82-95 | a concrete name for which it probes the wrong ones |
| Storage.TakenBounded | internal/storage/conflict.go:142-151 | the counter never passes the number of files in the directory by more than one |
| Storage.GenerateUniqueFilename | internal/storage/conflict.go:136-152 | terminates with a free name, the one with the least free counter |
| Storage.ResolveFinalPath | internal/storage/conflict.go:155-179 | conflict exactly under fail with the target taken; a free path under fail and rename; the target itself otherwise |
| Storage.FreshSuffixExists | internal/storage/conflict.go:212-214 | unused temporary and backup names exist on every disk |
| Storage.Disk.CopyInto | internal/storage/conflict.go:216-242 | every intermediate disk differs at the temporary file only; success exactly if every call of it succeeded, and then it is a full copy |
| Storage.Disk.MoveOrCopyFileExact | internal/storage/conflict.go:183-276 | at every step and for every choice of failing calls no bystander changes; an error keeps the source, and the old destination in place or at the backup path; a single failed call either does no harm or is undone without a trace; success delivers; without overwrite no existing file is touched; a reliable disk succeeds exactly on a free or replaceable destination |
| Storage.Disk.CopyThenReplace | internal/storage/conflict.go:211-276 | the same for the copy path alone |
| Storage.Disk.SetAsideAndSwap | internal/storage/conflict.go:244-276 | the same from the filled temporary file on |
| Storage.Disk.SetAside | internal/storage/conflict.go:247-262 | the old destination is moved to the backup path, or nothing changed |
| Storage.Disk.Swap | internal/storage/conflict.go:258-276 | the temporary file becomes the destination, or the old destination is restored or kept aside |
| Storage.Disk.RollBack | internal/storage/conflict.go:260-267 | a failed rollback still leaves the old content at the backup path, one that succeeds takes both steps back |
| Storage.ReadyUndone | internal/storage/conflict.go:242-268 | taking back what was done before the swap gives the disk as it was |
| Storage.Disk.CleanUpMove | internal/storage/conflict.go:271-275 | dropping backup and source never takes the delivered file away |
| Storage.Disk.FinalizeFileToPath | internal/storage/service.go:238-256 | the move's guarantees as one critical section, the single failed call included; a missing source changes nothing |
| Storage.Disk.CleanupWorkDir | internal/storage/service.go:287-308 | removes nothing without the job's own marker, nothing outside the directory ever, and succeeds exactly then |
| Storage.UnderExactly | internal/storage/service.go:287-308 | the directory is itself and what lies below it, not a neighbour whose name it begins |
| Text.TrimSpaceExactly | internal/storage/conflict.go:42-46 | the marker is compared without the space around it, and nothing else is trimmed |
| Text.SpaceExactly | internal/storage/conflict.go:44-44 | the space meant is tab to carriage return, blank, next line and no-break space |
| Storage.Disk.RemoveAll | internal/storage/service.go:287-308 | entries go one by one in any order, only inside the directory |
| Race.MovedKeepsInvariant | internal/storage/service.go:229-256 | a move to a free destination keeps all other jobs' artifacts and destinations apart |
| Race.LostKeepsInvariant | internal/storage/service.go:229-256 | a lost race leaves the loser's staging file and everybody else's files |
| Race.RunSection | internal/storage/service.go:229-256 | any single critical section of any job keeps the invariant and moves that job alone: to lost exactly for a conflict, to done exactly for a free destination on a reliable disk |
| Race.RunSections | internal/storage/service.go:229-256 | for any interleaving of resolve and move sections, every job gets as far as its own sections take it, finished jobs have different destinations holding their own artifacts, all others still have their staging file, and no foreign file changed |
| Finalization.SafeMeans | internal/job/finalization.go:126-271 | a safe state has the artifact at the staging path or the journaled destination, a completed job points at it, a work directory is touched only after completion, and a file to be replaced is in place or set aside until the artifact is there |
| Finalization.AdoptionBySizeSound | internal/job/finalization.go:310-334 | with phase in_progress and staging gone the destination is the artifact itself, so checking its size is enough |
| Finalization.AdoptionByDigestSound | internal/job/finalization.go:21-59 | a file that passes the digest check of a collision-free hash is the artifact |
| Finalization.MoveKeepsSlot | internal/storage/conflict.go:244-276 | through an overwriting move the target or a backup of it holds the old content or the artifact, also after earlier crashes |
| Finalization.SlotOutlivesCleanUp | internal/job/finalization.go:492-510 | the work-directory clean-up takes neither away |
| Finalization.MoveKeepsSafe | internal/job/finalization.go:166-188 | every disk inside the move of a journaled in_progress record is safe |
| Finalization.CleanKeepsSafe | internal/job/finalization.go:492-510 | every disk inside the clean-up of a committed record is safe |
| Finalization.SafeRunForward | internal/job/finalization.go:127-271 | over a whole run the journal phase never moves backward, never fails after the commit, and a completed job stays completed where it is |
| Finalization.FindRenamedArtifact | internal/job/finalization.go:74-105 | nothing without a digest; otherwise the first of the 1000 probes that validates |
| Finalization.Manager.SaveRecord | internal/database/execution_repository.go:345-391 | one durable step that changes the journal row only |
| Finalization.Manager.UpdatePhase | internal/database/execution_repository.go:394-421 | one durable step that changes the phase only |
| Finalization.Manager.UpdateJob | internal/job/finalization.go:225-234 | one durable step that changes the job row only |
| Finalization.Manager.MoveArtifact | internal/job/finalization.go:166-175 | every crash point inside the move is a safe state; a failed move keeps the staging file |
| Finalization.Manager.CleanUp | internal/job/finalization.go:253-257 | every crash point inside the clean-up is a safe state |
| Finalization.Manager.ExecuteCleanupAndComplete | internal/job/finalization.go:492-510 | ends complete; on a reliable disk the journaled directory, or the job's own if none was journaled, is gone if it carries the job's marker; nothing outside it is touched |
| Finalization.Manager.FailJob | internal/job/finalization.go:108-124 | the job is failed, journal and disk as they were |
| Finalization.Manager.Abort | internal/job/finalization.go:177-184 | journal failed, then job failed, both safe |
| Finalization.Manager.Commit | internal/job/finalization.go:225-266 | job completed at the journaled destination before the journal says so, clean-up only after both |
| Finalization.Manager.CommitAndCleanup | internal/job/finalization.go:453-489 | the same from recovery, with the total of the record, or else of the file, or else of the job |
| Finalization.Manager.MoveAndValidate | internal/job/finalization.go:160-203 | validated or failed; on a reliable disk validated exactly for a good size and a free or replaceable destination |
| Finalization.Manager.FinalizeMediaArtifact | internal/job/finalization.go:127-271 | ends with job and journal settled alike; on a reliable disk it completes exactly when size, place and subtitles are good, and then the marked work directory is gone |
| Finalization.Manager.ResumeFromSource | internal/job/finalization.go:396-450 | ends settled; on a reliable disk it completes exactly when size and place are good now |
| Finalization.Manager.Adopt | internal/job/finalization.go:313-329 | the adopted file becomes the journaled destination, then the job is committed |
| Finalization.Manager.ReconcileMoved | internal/job/finalization.go:324-355 | with staging gone it completes exactly when the journaled destination validates, or with a digest and a renaming policy one of the 1000 probes does; a destination is never deleted |
| Finalization.Manager.RestoreCommit | internal/job/finalization.go:369-381 | a journal ahead of the job row brings the row up to the commit |
| Finalization.Manager.ReconcileRecord | internal/job/finalization.go:298-393 | any record of any journal ends complete or failed, a settled one is left alone, and on a reliable disk it completes exactly when deliverable |
| Finalization.Manager.RecoverJob | internal/job/recovery.go:57-107 | queued and paused jobs wait, any other media job is failed |
| Finalization.Manager.Recover | internal/job/recovery.go:19-55 | journal before jobs; everything settled; a second recovery changes nothing; completes exactly when deliverable, and then the marked work directory is gone |
| Finalization.Manager.Crash | internal/job/finalization.go:298-393 | the process restarts from any durable state of its past |
| Finalization.FinalizeThroughCrashes | internal/job/finalization.go:126-510 | through any failing calls and any crashes, in recovery too, every durable state of every life is safe, each life begins where the crash cut the one before, a completed job stays completed at its path, and the end is settled with the artifact where the job or the journal says |
| Finalization.SettledEnds | internal/job/recovery.go:19-55 | a settled safe state is completed with the artifact where the job says, or failed with it where it was or where the journal says |
| Events.BridgesInOrder | internal/events/bus.go:49-94 | pushed in order, the buffer bridges exactly the cursors from just before its oldest event to its newest |
| Events.ReplayBuffer.constructor | internal/events/bus.go:19-27 | empty, with the default capacity for a non-positive one |
| Events.ReplayBuffer.Push | internal/events/bus.go:30-43 | the buffer holds the last min(capacity, n) sequenced events, shifted in place |
| Events.ReplayBuffer.GetEventsAfter | internal/events/bus.go:49-94 | succeeds exactly when bridgeable, with exactly the run c+1..newest |
| Events.EventsAfter | internal/events/bus.go:49-94 | the same over the slice under the read lock |
| Events.ShiftIn | internal/events/bus.go:37-39 | the oldest event leaves, the others move down one slot, the new one is last |
| Events.InMemoryBus.Subscribe | internal/events/bus.go:168-174 | a new empty channel beside the others |
| Events.InMemoryBus.Unsubscribe | internal/events/bus.go:177-184 | that channel is gone, no other |
| Events.InMemoryBus.Publish | internal/events/bus.go:150-165 | sequenced events enter the buffer; each channel gets the event or, when full, drops it |
| Stream.ServeHTTP | internal/events/sse.go:51-151 | writes exactly what replay phase and live loop specify for the cursors and channel contents |
| Stream.WriteReplay | internal/events/sse.go:97-103 | every replayed event in order, ending at the newest |
| Stream.LiveLoop | internal/events/sse.go:121-150 | skips duplicates, passes ticks, stops at a gap |
| Stream.StreamContiguous | internal/events/sse.go:85-151 | a stream at cursor c writes sequenced events exactly c+1, c+2, ... for any channel contents |
| Stream.StreamStartsAtCursor | internal/events/sse.go:85-151 | it does so exactly unless both cursors are zero and the channel starts late |
| Stream.ServeRunsFromStart | internal/events/sse.go:85-151 | every stream, pinned or not, writes the sequenced events after its start one by one |
| Stream.ServeSyncEnds | internal/events/sse.go:80-151 | sync.required is only ever the last frame |
| Stream.UnpinnedStreamContiguous | internal/events/sse.go:83-150 | without a usable cursor it is still contiguous from its first event |
| Stream.SyncExactlyOnGap | internal/events/sse.go:131-135 | the live loop ends in sync.required exactly when some event leaps past all that was sent or delivered before it |
| Stream.SyncAtLeap | internal/events/sse.go:131-135 | the demand names the first event that does |
| Stream.DemandsSyncExactly | internal/events/sse.go:83-135 | a whole stream ends in sync.required exactly when the client is ahead of the server, or behind it and the buffer cannot bring it up, or a live event leaps; in the first two cases that is all it writes, with the server's cursor |
| Stream.SendsAllWithoutSync | internal/events/sse.go:121-150 | a live loop that does not end in a demand has sent every event above what was sent before |
| Stream.InOrderDeliversAll | internal/events/sse.go:121-150 | an in-order channel without drops is delivered completely, without a false alarm |
| Stream.ServeDeliversAll | internal/events/sse.go:85-151 | replay plus such a channel brings the client from its cursor to the newest event |
| Stream.SentWasDelivered | internal/events/sse.go:121-150 | nothing is written that was not delivered |
| Stream.TicksPassThrough | internal/events/sse.go:129-148 | unsequenced events pass untouched and in order while the stream lives |
| JobState.DeduplicateJobsById | web/src/jobState.ts:19-35 | the map-indexed loop computes the deduplication |
| JobState.DedupMerges | web/src/jobState.ts:19-35 | one job per id, merged over all its mentions in order |
| JobState.DedupOrder | web/src/jobState.ts:19-35 | jobs come out in order of first mention |
| JobState.DedupOfUnique | web/src/jobState.ts:19-35 | a list without repeated ids is left alone |
| JobState.UpsertJobs | web/src/jobState.ts:37-54 | new jobs first in their order, then the current ones in place, refreshed |
| JobState.UpsertById | web/src/jobState.ts:37-54 | by id the upsert is the union, with the newer version where both have one |
| JobState.NewOnesInOrder | web/src/jobState.ts:43-53 | the new jobs are those the client lacks, in the incoming order |
| JobState.UpsertJob | web/src/jobState.ts:56-58 | one job is merged by id into the deduplicated list and no other job is affected |
| JobState.ReconcileKeepsNewer | web/src/jobState.ts:64-75 | exactly the deduplicated snapshot's jobs remain, each in the newer version |
| JobState.ReconcileKeepsOrder | web/src/jobState.ts:68-74 | in the snapshot's order |
| JobState.RemoveDropsExactly | web/src/jobState.ts:77-79 | exactly that id disappears |
| JobState.RemoveInOrder | web/src/jobState.ts:77-79 | every other job stays, in its order |
| JobState.RemoveKeepsUnique | web/src/jobState.ts:77-79 | ids stay unique |
| Cursor.EventCursor.AdvanceRow | internal/database/execution_repository.go:600-641 | succeeds exactly when a commit comes within five attempts and before any error but busy, and then the row is one higher; otherwise nothing changed |
| Cursor.EventCursor.AdvanceEventCursor | internal/job/manager.go:4066-4078 | the next durable number, or the next number of the counter in memory |
| Cursor.IssuedAtSwitch | internal/job/manager.go:4066-4078 | at the first switch between row and memory the number comes from where the other counter stood |
| Cursor.IssuedConsecutively | internal/job/manager.go:4066-4078 | from process start, numbers are consecutive exactly when every advance got through, or none did on an empty database |
| StateSync.AnnouncedPrefix | internal/database/execution_repository.go:600-641 | an earlier cursor covers a prefix of the events, all about writes made before it was read |
| StateSync.DbIsLastTouch | internal/job/manager.go:4100-4115 | the server's job is what its last write or deletion left |
| StateSync.GetSyncSnapshot | internal/job/manager.go:2619-2659 | fails exactly when a listing it needs does; otherwise returns what its first quiet or else third attempt read, the cursor no later than the jobs |
| StateSync.SnapshotIsQuietOrThird | internal/job/manager.go:2619-2659 | every attempt before the one that counts saw the cursor move, and unless all three did the jobs were read while the cursor stood at the snapshot's own |
| StateSync.ApplySettles | web/src/App.tsx:133-148 | the announcement of a job's last step brings agreement, and no later event takes it away |
| StateSync.SnapshotStart | web/src/App.tsx:150-178 | a reconciled snapshot agrees on every job settled before its cursor and is behind on the rest |
| StateSync.OrderedStampsSettle | internal/job/manager.go:4100-4115 | stamps growing in write order, deletion last and announced last are enough, whatever the publish order |
| StateSync.Converges | internal/job/manager.go:2619-2659 | snapshot or reconciliation at c plus the events after c gives exactly the server's job map, even if the listing raced with writers |
| StateSync.LastEventDecides | web/src/App.tsx:133-148 | on every trace and from any client state, the job's last event alone decides whether the client has the job |
| StateSync.ConvergesExactly | internal/job/manager.go:4100-4115 | every snapshot leads to the server's view of a job if and only if no earlier write is newer than the last, the last step is announced, and later announcements are strictly older |
| StateSync.OrderedStampsConvergeExactly | internal/job/manager.go:4100-4115 | with stamps growing in write order this is: the last step is announced, a deletion as the job's last event |
| StateSync.ResumesExactly | web/src/App.tsx:99-148 | a client that holds any map of the past and applies the events after any position ends with the server's job map exactly when every job's last word is in the map or still to be announced |
| StateSync.ListingCovers | web/src/App.tsx:99-108 | for a listing this means: it saw each job's last step, or that step is still to be announced, or it is the deletion of a job the listing does not have |
| StateSync.ReorderedPair | web/src/jobState.ts:8-17 | an instance: two writes announced in the wrong order converge exactly when equal or told apart by their stamps |
| StateSync.DeletionMustComeLast | web/src/App.tsx:141-145 | an instance: an update announced after the deletion revives the job |
| StateSync.FirstLoadLoses | web/src/App.tsx:99-108 | a concrete run without drops in which a first snapshot at cursor zero loses a job for good |
| StateSync.PayloadLeavesUnannounced | internal/job/network_controls.go:201-213 | a concrete run with growing stamps whose last write of a job is published with a payload: it has no event that announces it |
| Client.App.Load | web/src/App.tsx:99-108 | jobs and cursor are the snapshot's whatever was applied before, and a new stream is asked for exactly for a positive cursor |
| Client.App.HandleEvent | web/src/App.tsx:133-148 | an event at or below the cursor changes nothing; any other is applied once by id |
| Client.App.OnFrame | web/src/transport/http.ts:546-561 | a frame reaches handleEvent exactly when its type carries a job, under its own sequence or, for a tick, the last id of the stream |
| Client.HearsTickUnderLastId | web/src/transport/http.ts:546-554 | a tick before any id is applied; later it is applied exactly if the last id is above the cursor, which then moves to it |
| Client.App.BeginRehydration | web/src/App.tsx:150-162 | a newer request supersedes all older ones |
| Client.App.FinishRehydration | web/src/App.tsx:163-174 | only the newest request's snapshot is reconciled, and its cursor taken |
| Client.Follow | web/src/App.tsx:133-148 | handling the frames of a stream one by one, payloads unheard |
| Client.CursorMoves | web/src/App.tsx:133-140 | the cursor never goes back, and moves exactly with a frame that is heard under an id above it |
| Client.Hearing | web/src/App.tsx:133-148 | a client that follows a stream applies exactly the server's events above its cursor up to the stream's end, and no event after the cursor it reaches carries a job |
| Client.ReachesAtMost | internal/events/sse.go:121-151 | no stream over genuine events runs past the server's cursor |
| Client.StreamOpens | internal/events/sse.go:51-151 | a stream opened at any cursor is a run of the server's events after its start, which is that cursor exactly when its first event is pinned |
| Client.SnapshotCovers | internal/job/manager.go:2619-2659 | a snapshot and the events after its own cursor always cover the server's jobs |
| Client.TakenIsSound | web/src/App.tsx:99-178 | after any answer, taken over or reconciled, no job is ahead of the server and the events after the answer's cursor cover the rest |
| Client.AnswerKinds | web/src/App.tsx:99-178 | a first answer leaves exactly the listing, a resync the newer version of each job it lists, and only a first answer at cursor zero leaves the old stream open |
| Client.SentIsFromServer | internal/events/sse.go:85-151 | a stream over genuine events writes genuine events only |
| Client.ApplyStaysBehind | web/src/App.tsx:133-148 | no job the client holds is ever ahead of the server's last word on it |
| Client.SnapshotStaysBehind | web/src/App.tsx:163-171 | nor after reconciling a snapshot |
| Client.InOrderCatchesUp | internal/events/sse.go:85-151 | a stream opened no later than the server's cursor and without drops ends at that cursor |
| Client.ReopensFrom | web/src/App.tsx:181-204 | reopening at the cursor the window left loses and repeats nothing of what the old stream still delivered |
| Client.ShowsFromResume | web/src/App.tsx:95-204 | what the client shows at the end of the stream an answer left open is that answer and the events after one position |
| Client.ArriveExactly | web/src/App.tsx:95-204 | after an answer in any state, first or resync, with any window: once the events with jobs are delivered the client is right exactly when the answer and the events after that position cover the server's jobs, and right if the position is the answer's cursor |
| Client.ResumesAtCursor | web/src/App.tsx:95-204 | the position is the answer's cursor exactly when: not reopened and nothing delivered before; or moved in the window and the old stream no further than the answer; or not moved and the new stream pinned |
| Client.InOrderDelivers | web/src/App.tsx:181-204 | a stream that is reopened and drops nothing catches the client up |
| Client.RunIsSound | web/src/App.tsx:95-204 | through any number of answers the client's jobs are behind the server's and its stream is a run of the server's events |
| Client.SessionConverges | web/src/App.tsx:95-204 | through the mount stream and any answers, a caught-up client is right exactly as the last answer decides; after one whose events are applied from its own cursor on it is right, and a last stream without drops always catches up |
| Client.WindowLoses | web/src/App.tsx:99-108 | a concrete run without drops in which an event between the first snapshot and the closing of the old stream makes the client lose a job for good |
| Client.TickLoses | web/src/transport/http.ts:546-554 | the same loss when only a progress tick comes in between |
| Client.PayloadLoses | web/src/transport/http.ts:556-561 | a concrete run without drops and with growing stamps in which a write published with a payload never reaches a client that has handled everything else |
| Client.TakeAnswer | web/src/App.tsx:99-178 | the first answer is taken over, a later one reconciled, and which of them asks for a new stream |
| Client.OpenStream | web/src/App.tsx:181-195 | the stream is opened at the cursor the client has at that moment |
| Client.OnAnswer | web/src/App.tsx:95-204 | frames before the answer, the answer, frames of the old stream after it, the new stream: the client and its open stream are what the state machine says |
| Client.Session | web/src/App.tsx:95-204 | the same for a whole life, from the stream opened at mount to the end of the last one |
| Selection.AcceptedIsPermutation | internal/job/manager.go:1562-1590 | an accepted selection names every file exactly once, and the engine's indexes are distinct |
| Selection.ValidateSelection | internal/job/manager.go:1549-1592 | accepts exactly the acceptable selections |
| Selection.SumSelectedBytes | internal/job/manager.go:1594-1603 | the total over the files not skipped |
| Selection.PersistSelection | internal/database/torrent_repository.go:356-375 | every row carries its choice, or nothing changed because a row was missing |
| Selection.CalculatePersistedBytes | internal/job/manager.go:3319-3352 | succeeds exactly on consistent rows with something selected and a positive total, which it returns |
| Selection.SumOfSameFiles | internal/job/manager.go:3329-3344 | totals do not depend on the order of the rows |
| Selection.BytesConserved | internal/job/manager.go:1681-1690 | the persisted rows are consistent and add up to the bytes of the request |
| Selection.StartThenDispatch | internal/job/manager.go:3460-3489 | an accepted selection is persisted and dispatched with the total it was accepted with, except that one of no bytes is refused |
| Selection.EmptySelectionAccepted | internal/job/manager.go:1549-1603 | a concrete accepted selection of zero bytes |

## Left out

- Finalization.FinalizeThroughCrashes: assumes that row writes succeed, that the staging file is the complete artifact, that the destination directory is neither the staging directory nor inside the work directory, and that nobody else touches the files involved; `Race` covers other jobs of the same process. The cut of a crash is taken between steps; a torn single rename or row write is not modelled.
- Finalization.Manager.FinalizeMediaArtifact: one journal record per job; a retry's further record, execution rows, names, timestamps and error texts are not part of the model. Writes to the active-job cache are not durable and are left out.
- Finalization.Manager.CommitAndCleanup: the subtitle move of recovery, whose outcome the code ignores, is not modelled.
- Finalization.Manager.Recover: one journal record and one job instead of the lists; jobs of one process that race for a destination are in `Race`.
- Finalization.Manager.RecoverJob: media jobs only; torrent and direct downloads are reattached to engines, which are foreign systems.
- Storage.Disk.MoveOrCopyFileExact: the second existence check after the copy can differ from the first only if somebody else creates the destination meanwhile, so its conflict branch does not occur. Creating the destination directory may fail but adds no entry to the map. A rename of a directory moves one map entry.
- Storage.Disk.RemoveAll: the removal order of entries is arbitrary; the directory entry itself is not a map entry.
- Storage.ResolveFinalPath: a stat error other than "not exist" is not modelled; the empty path does not occur.
- Names.ExtOfCandidate: letter case is folded for ASCII only.
- Text.TrimSpaceExactly: space is that of the Latin-1 characters.
- Ranking.RankQueuedJobs: the library's stable sort is taken by its result, which `Ranking.StableSortUnique` shows to be unique. Missing (nil) jobs and 64-bit overflow of scores are not modelled.
- Scheduler.Scheduler.Schedule: only the path with a resource governor. The governor's state is held as a value, whose steps `Governor.ResourceGovernor` refines. A changed retry configuration while running is left out. Termination needs the store to become quiet at some point.
- Scheduler.Scheduler.DispatchFn: the manager's dispatch is reduced to what it does to store, queue and active set; preflight, engine calls and execution rows only decide its outcome.
- Events.InMemoryBus.Publish: locks are one atomic step each; delivery to one channel at a time is kept.
- Client.SessionConverges: progress ticks (sequence 0) are heard and may move the cursor, but are taken to tell the client nothing but progress, which is not part of a job here (`Client.Echoes`). A tick that arrives after its job's deletion, or ahead of the event of a write, is left out. The stamps are the client's, in milliseconds.
- Client.Session: failed snapshot requests with their fallback load, the queue panel and the browser's own reconnects are left out. The answers may come in any order and number; the code makes one first request.
- Client.App.OnFrame: the HTTP transport. The desktop transport (`web/src/transport/desktop.ts`) hands every event to `handleEvent` with its job, payload or not; it is not part of this model.
- StateSync.GetSyncSnapshot: the queue part of the snapshot is not modelled; it can fail like a listing.
- StateSync.Converges: a listing is one atomic read; hydration from the manager's memory is left out.
- Selection.StartThenDispatch: the stored rows must describe the engine's files with the engine's sizes; disk preflight, engine priorities, seeding policy and the rest of the transaction are left out. Overflow of 64-bit sums is not modelled.
- Subtitle sidecars appear only as success or failure; the sweep of stale work directories, which may remove a failed job's staging file later, is not modelled.
- HTTP routing, settings, categories, engine clients, process control, SQL text and migrations, encryption and the user interface are not modelled.
