# Verified models of sypl's logging core

sypl is a structured logging library for Go. This project models the parts of it whose
correctness is hardest to see from the code and proves what they promise:

- **Asynchronous output.** Writers, flushers and a closer share a bounded queue with one
  worker under a mutex and a condition variable. `AsyncBuffer` holds the critical
  sections, as functions and as a class over a shifting slot array that implements them;
  `AsyncProtocol` interleaves them into a transition system with an inductive invariant;
  `AsyncTheorems` proves that no wake-up is lost, nothing deadlocks and every run ends;
  `AsyncDelivery` proves order, conservation, snapshot flushes with a bounded wait, and a
  drained close, `AsyncPolicies` when a Write is accepted, drops, waits or is refused, and
  `AsyncFlushing` when the wrapped output has been flushed.
- **Rotating file.** A writer that rotates by size and recovers from failures of close,
  rename, open, stat, list and remove. `Directory` is the file system with the
  environment's decisions, `BackupNaming` and `Decimal` the collision-free names,
  `Pruning` the removal of old backups, `RotatingWriter` the writer; `RotationTheorems`
  proves byte conservation, `RotationSize` the size bound, `RotationPruning` when a Write
  rotates, what it then prunes and what it reports, and `RotationOrder` the order of the
  backups over every run.
- **Flow control.** `Dedup`, `Sampler` and `RateLimiter` over message traces (`KeyTrace`),
  with the exact conditions under which evicting all keys is harmless; `FlowControl` puts
  them on an output of a logger.
- **Dispatch.** `LineBreaks` (strip and restore), `LazyIdentity` (identities shared by a
  message and its copies), `Pipeline` (processors, flags, levels, outputs, fast gate) and
  `PipelineTheorems`; `PipelineFlags` says which messages each output writes, and
  `FilterEntries` which loggers the filter lets through; `ConcurrentOutputs` runs the
  outputs' writes step by step on copies that share memory, `CopyRaces` says when they race,
  and `ProcessorState` when outputs that share stateful processors disturb each other;
  `GoSlices` and `Containers` for who may write which backing array.
- **Lookup and bridge.** `DebugMatcher` (levels from the debug variable, on `Text`),
  `MatcherCache` (its bounded concurrent cache) and `SlogHandler` (flattening of attribute
  trees and the laws of derived handlers).

Code that works by updating fields, arrays and locals is a class or a method with loops,
proved equal to a function of the old state; theorems over runs are about that function.

## Where code and documentation differ

The model follows the code. The proofs show these differences:

- processor/dedup.go:113-116, 188-191 say that evicting all keys at worst lets a few extra
  messages pass. Counted per key that is so (`Dedup.EvictionNeverLosesPasses`); message by
  message it is not: a message can be muted because of the eviction, exactly when the
  window is longer than one tick (`Dedup.IncludedIff`).
- processor/sample.go:77-80, 148-151 make the same claim. It holds exactly when `Thereafter`
  is 1, or `Thereafter` is 0 and `First` at most 1, or the window is infinite or a single
  tick and `First` is at least 1 (`Sampler.EvictionSafeIff`). Otherwise an eviction can
  mute messages that would have passed.
- output/rotate.go:39-43 says that every Flush retries the reopen. `Sync`
  (output/rotate.go:156-169) does not; only `Write` does.
- output/rotate.go:269-273 lets any Lstat error free a backup name. If Lstat fails for a
  name that exists, the rename replaces that backup
  (`RotationTheorems.LstatFailureLosesBytes`). A segment of the log is lost in no other way
  than this and pruning (`RotationTheorems.RotationIntactIff`); a segment that was replaced
  counts as lost even if pruning later removes the file that has its name.
- output/rotate.go:234-236 restarts the size counter from zero when Stat fails, and the
  factory (output/rotate.go:419-425) starts it from zero when its own Stat does. Then the
  live file can pass the threshold (`RotationSize.StatFailureBreaksBound`,
  `RotationSize.FactoryStatBreaksBound`). `RotationSize.FactoryRunSyncedIff` says exactly
  when the counter is exact, `RotationSize.BoundIff` exactly when a Write keeps the bound.
- MaxAgeDays above 106751 overflows the duration of the age cutoff; 106752 days is a
  cutoff in the future (`Pruning.CutoffExact`).
- sypl.go:742-749 is meant to give every message the global fields, but a message whose
  own fields map is nil loses them (`PipelineTheorems.GlobalFieldsCarriedIff`), because
  fields/fields.go:12-15 returns a nil source as the result.
- message/message.go:149-177: Restore undoes Strip only the first time; after a second
  Strip the earlier line breaks come back too (`LineBreaks.RoundTripIff`).
- message/message.go:344-345 is written so that copies cause no data race, but
  message/message.go:380-381 copies the line breaker with its slice. Two outputs' writes of
  one slot are unordered exactly when the message ends in a line break, its list of control
  characters has spare capacity, and two outputs are eligible
  (`CopyRaces.DeliveryRacesIff`); a message that its caller stripped of three line breaks is
  one, a fresh one never is (`CopyRaces.StrippedMessageRaces`,
  `CopyRaces.FreshMessageNeverRaces`). Both assign the same string, so the texts are right
  (`CopyRaces.CollidingWritesAgree`, `ConcurrentOutputs.DeliveryIsProcess`).
- output/async.go:224-225 says that after Close a Flush is a no-op because Close already
  flushed everything. A Flush that finds the output closed while the Close is still waiting
  for the worker returns before that flush: a returned Flush can be relied on exactly when it
  flushed itself or no Close is under way (`AsyncFlushing.AlwaysFlushedIff`).
- output/rotate.go:300 sorts by name to have the newest first. That is so, whatever the cap,
  exactly while names ascend in the order of the rotations
  (`RotationOrder.RotationKeepsRecentIff`). Later stamps see to that
  (`RotationOrder.RunAscends`); under one stamp the suffix -10 sorts before -2
  (`RotationOrder.CandidatesAscendIff`), and a name that pruning freed is taken again
  (`RotationOrder.FreedNameIsSmaller`).
- debug/debug.go:44-46 promises whole entries; a comma or a colon in a component's or an
  output's name makes `Level` misread some variables (`DebugMatcher.LevelIsSpecIff`).
- debug/debug.go:202-234: component and output names that contain NUL characters can share
  a cache key and be given each other's matchers (`MatcherCache.AlwaysOwnIff`).

## Model

| member | source | states |
|---|---|---|
| AsyncBuffer.AsyncOutput.constructor | output/async.go:481-505 | an empty, open buffer; a non-positive size keeps the default capacity |
| AsyncBuffer.AsyncOutput.EnqueueLocked | output/async.go:298-306 | appends with the next sequence number; the head number is set when the queue was empty |
| AsyncBuffer.AsyncOutput.ShiftLeft | output/async.go:311-324 | the in-place copy moves every queued message one slot down and touches no other slot |
| AsyncBuffer.AsyncOutput.DequeueLocked | output/async.go:311-324 | returns the oldest message with its number; the rest keep their order, the freed slot is cleared |
| AsyncBuffer.AsyncOutput.MinUnresolvedSeqLocked | output/async.go:330-340 | computes the number `MinUnresolvedExact` characterises |
| AsyncBuffer.AsyncOutput.WriteLocked | output/async.go:157-218 | the Write critical section: refused exactly when closed; with room enqueued under every policy; drops exactly at capacity under a dropping policy, with the new total; parks otherwise; broadcasts whenever the queue changed |
| AsyncBuffer.AsyncOutput.WriteWokenLocked | output/async.go:198-217 | refines the blocking wait loop, on entry and after each wake-up |
| AsyncBuffer.AsyncOutput.FlushLocked | output/async.go:231-251 | takes the last assigned number as its target, parks while it is unresolved, else leaves and reports whether the output is closed |
| AsyncBuffer.AsyncOutput.FlushWokenLocked | output/async.go:238-242 | the wait loop for that target, on entry and after each wake-up |
| AsyncBuffer.AsyncOutput.WorkerLocked | output/async.go:402-420 | parks on empty and open, exits on empty and closed, else takes the head and marks it in flight |
| AsyncBuffer.AsyncOutput.ResolveLocked | output/async.go:424-427 | clears the in-flight number |
| AsyncBuffer.AsyncOutput.CloseLocked | output/async.go:263-266 | sets closed |
| AsyncProtocol.MinUnresolvedExact | output/async.go:326-340 | everything below the number is written or dropped, and it is itself unresolved unless everything is resolved |
| AsyncProtocol.KeepEnqueue | output/async.go:298-306 | enqueueing keeps numbers contiguous and the fate of every message as recorded |
| AsyncProtocol.KeepDropOldest | output/async.go:179-196 | dropping the oldest changes the fate of exactly the head message |
| AsyncProtocol.KeepTaken | output/async.go:414-416 | taking the head hands over the next message in order |
| AsyncProtocol.StepKeeps | output/async.go:157-431 | the invariant of queue, numbers, fates and parked threads survives every step of every thread |
| AsyncProtocol.RunKeeps | output/async.go:157-431 | ... and therefore every interleaving |
| AsyncPolicies.RoomAccepts | output/async.go:157-218 | with room in an open output a Write is accepted under every policy: its message joins the end of the queue and nothing is dropped |
| AsyncPolicies.FullByPolicy | output/async.go:166-209 | at capacity DropNewest drops the new message, DropOldest drops the oldest and appends the new one, and the blocking policy and unlisted ones park and change nothing |
| AsyncPolicies.WokenInVain | output/async.go:200-202 | a Write that is woken while the queue is full waits again |
| AsyncPolicies.RefusedIff | output/async.go:160-164 | a Write is refused exactly when it finds the output closed, and then changes nothing |
| AsyncPolicies.DropsExactly | output/async.go:166-196 | of all steps of all threads exactly a Write at a full queue under a dropping policy drops, and it drops one message |
| AsyncPolicies.RunDropsExactly | output/async.go:157-218 | over every run the drop counter is the number of such steps |
| AsyncPolicies.NeverFullAccepts | output/async.go:157-218 | a run whose queue is never full drops nothing, makes no Write wait, and refuses one only if the output was closed by then |
| AsyncTheorems.NoLostWakeup | output/async.go:157-290 | in every reachable state a parked thread's condition is false, and while a writer or flusher sleeps the worker has a step |
| AsyncTheorems.NoDeadlock | output/async.go:157-431 | a reachable state without an enabled step has every call returned, nothing queued or in flight, and the worker asleep, or gone if closed |
| AsyncTheorems.EveryRunEnds | output/async.go:157-431 | no schedule is longer than a rank of its first state: every call returns |
| AsyncDelivery.HandedIsSubsequence | output/async.go:398-431 | the wrapped output receives exactly the messages in flight or written, each once, in enqueue order, under every policy |
| AsyncDelivery.FifoExact | output/async.go:298-324 | unless the oldest is dropped, handed over followed by queued is exactly what was enqueued; the queue never exceeds the capacity |
| AsyncDelivery.NothingVanishes | output/async.go:157-218 | Writes that returned nil are exactly the messages handed over, queued, or counted as dropped |
| AsyncDelivery.MinUnresolvedGrows | output/async.go:326-340 | the lowest unresolved number never falls and every completed inner write raises it |
| AsyncDelivery.LeftShrinks | output/async.go:231-251 | each completed inner write reduces what a flush target still waits for, however many writes arrive |
| AsyncDelivery.FlushIsSnapshot | output/async.go:220-244 | past its wait, every message enqueued before the Flush was written, or dropped by DropOldest |
| AsyncDelivery.FlushWaitIsBounded | output/async.go:220-251 | a sleeping Flush sees at most capacity completions; after capacity + 1 it is past its wait or leaves it at its next step |
| AsyncDelivery.CloseDrains | output/async.go:253-290 | once a Close has returned the worker is gone, nothing is queued or in flight, every message is settled |
| AsyncDelivery.ClosedRefuses | output/async.go:160-164 | after closed is set nothing is enqueued and every Write not yet returned is refused |
| AsyncFlushing.ReturnedIsFlushed | output/async.go:246-250 | a Flush that called flushInner, and any Close, return after a flush of the wrapped output that covers every message they waited for |
| AsyncFlushing.AlwaysFlushedIff | output/async.go:220-290 | a returned Flush always had its messages flushed exactly when it flushed itself or no Close is under way |
| Dedup.Deduper.Process | processor/dedup.go:98-150 | one message: pass, roll over with a report, or mute, with evict-all of a full map |
| Dedup.PassesIff | processor/dedup.go:98-150 | on any trace, with evictions or without, a message passes exactly when its key is not remembered, or it comes at least a positive window after the last message of its key that passed; it then reports the messages of the key muted in between |
| Dedup.UnboundedPassesIff | processor/dedup.go:98-150 | without evictions the first message of a key passes and then each at least the window after the last that passed, none ever again for an infinite window |
| Dedup.EvictionNeverLosesPasses | processor/dedup.go:111-131 | on every prefix of a monotone trace the bounded processor has passed at least as many messages of each key as an unbounded one |
| Dedup.NarrowWindow | processor/dedup.go:111-131 | for windows up to one tick the bounded run never remembers a later pass |
| Dedup.WideWindowExcludes | processor/dedup.go:113-120 | for longer windows a trace exists in which eviction mutes a message that would have passed |
| Dedup.IncludedIff | processor/dedup.go:113-120 | everything that passes unbounded passes bounded exactly when the window is at most one tick |
| Dedup.SuppressionsAccounted | processor/dedup.go:122-135 | muted messages of a key equal those reported, pending in its entry, or forgotten by evictions |
| KeyTrace.KeysBounded | processor/dedup.go:117-119 | evict-all keeps the map within its bound |
| KeyTrace.FillEvicts | processor/dedup.go:117-121 | as many new keys as the map holds evict a key seen before them |
| Sampler.SampleProcessor.Process | processor/sample.go:67-116 | one message: entry creation with evict-all, window reset, counting, and the verdict |
| Sampler.DividesIff | processor/sample.go:109 | the every-Thereafter-th test of the model is the remainder test of the code |
| Sampler.PassesIff | processor/sample.go:67-116 | a message passes exactly when its number in the window of its key, windows defined apart from the processor, is at most First or a multiple of Thereafter beyond it |
| Sampler.ClosedForm | processor/sample.go:95-113 | of n messages of a key in a window exactly min(n, First) + (n - First) / Thereafter pass, in any trace |
| Sampler.QuotaSplit | processor/sample.go:76-83 | cutting a window in two never lets fewer through, if First is at least 1 or Thereafter at most 1 |
| Sampler.NarrowWindow | processor/sample.go:76-92 | with an infinite or one-tick window a run cut by evictions is never behind the uncut one, if First is at least 1 or Thereafter at most 1 |
| Sampler.OncePerWindow | processor/sample.go:76-113 | with First = 1 and Thereafter = 0 the bounded run stays ahead of or even with the unbounded one, for every window |
| Sampler.CutAtOnceUnsafe | processor/sample.go:76-83 | an eviction inside a window loses a message whenever the quotas of its two parts fall short |
| Sampler.CutShiftedUnsafe | processor/sample.go:76-92 | an eviction before the last tick of a window loses a message whenever the quotas of the shifted windows fall short |
| Sampler.UnsafeWhen | processor/sample.go:76-113 | for every other setting some trace loses a message to an eviction |
| Sampler.EvictionSafeIff | processor/sample.go:76-113 | evictions never lose a message of any key exactly when every message passes, or none or one per window does, or the window is at most one tick and First is at least 1 |
| RateLimiter.Limiter.Process | processor/ratelimit.go:82-129 | one message: open the first window, roll over with a report, count, mute |
| RateLimiter.PassesIff | processor/ratelimit.go:82-129 | a message passes exactly when its number in its window is within the limit; the one that opens the next window reports how far the last one went beyond it |
| RateLimiter.SlidingBound | processor/ratelimit.go:85-110 | on a monotone clock no interval as long as the window sees more than 2 * max - 1 messages pass (max for a window of one tick) |
| RateLimiter.SlidingBoundAttained | processor/ratelimit.go:85-110 | the bound is attained for every limit and window |
| RateLimiter.DropsAccounted | processor/ratelimit.go:95-118 | every message passed, was reported at a rollover, or is in the dropped counter |
| RateLimiter.InfiniteWindow | processor/ratelimit.go:95-110 | a window that is not positive passes the first max messages ever and reports nothing |
| FlowControl.ControlledOutput | output/output.go:230-286 | over any run of messages an output with one stateful processor, whatever its algorithm, writes a message exactly when it admits it and the processor, given what it saw so far, does not mute it; messages it does not see leave no mark on it |
| FlowControl.DedupOutput | processor/dedup.go:98-150 | so with Dedup it writes those of the messages seen that it admits and that pass the deduplication of their key |
| FlowControl.SampleOutput | processor/sample.go:67-116 | with Sample those whose number in the window of their key the settings admit |
| FlowControl.RateOutput | processor/ratelimit.go:82-129 | with RateLimit those whose number in the limiter's window is within the limit |
| FlowControl.RateLimitedOutput | processor/ratelimit.go:82-129 | with RateLimit no interval as long as the window sees more messages written than the limiter's bound, forced messages included |
| Decimal.PrintInjective | output/rotate.go:275 | different numbers print differently |
| BackupNaming.CandidatesDiffer | output/rotate.go:263-277 | no two candidate names are equal |
| BackupNaming.BackupNameIsFresh | output/rotate.go:263-277 | the chosen name is absent, extends the base, and is the first free candidate |
| BackupNaming.BackupPath | output/rotate.go:263-277 | the loop terminates and returns that name, however many files share the timestamp |
| Pruning.CutoffExact | output/rotate.go:318-328 | the 64-bit cutoff is the intended age exactly up to 106751 days |
| Pruning.ListBackups | output/rotate.go:292-303 | the listing holds exactly the non-directories with the prefix, newest name first |
| Pruning.IndexIsRank | output/rotate.go:300-316 | an index in the sorted listing is the number of newer backups |
| Pruning.PruneByCount | output/rotate.go:307-316 | attempts exactly the given surplus, removing what can be removed |
| Pruning.PruneByAge | output/rotate.go:318-336 | attempts exactly the retained backups whose stat succeeds and that are older than the cutoff |
| Pruning.PruneBackups | output/rotate.go:282-340 | the loops remove exactly what the set-based definition of pruning says |
| Pruning.AttemptsExactly | output/rotate.go:282-340 | a name is attempted iff it is a backup beyond the newest MaxBackups, or inspectable and too old |
| Pruning.PruneFrame | output/rotate.go:282-340 | survivors are unchanged; the live file and non-backups are never touched; a missing entry was attempted and removed |
| Pruning.CapIsMet | output/rotate.go:282-340 | a nil result with a cap leaves at most MaxBackups backups |
| RotationOrder.KeepsRecentIff | output/rotate.go:300-316 | pruning by count keeps the most recently rotated segments, whatever the cap, exactly when their names ascend |
| RotationOrder.RotationKeepsRecentIff | output/rotate.go:200-218 | a rotation prunes so, the segment just moved included, exactly when the chosen name is greater than all kept ones |
| RotationOrder.CandidatesAscendIff | output/rotate.go:263-277 | the names tried under one stamp ascend exactly up to the suffix -9 |
| RotationOrder.FreedNameIsSmaller | output/rotate.go:263-277 | once a stamp's first name is free while its second is kept, the next name chosen under it is not greater |
| RotationOrder.RunAscends | output/rotate.go:108-340 | when every Write has a later stamp of the same width, names ascend through every run and every failure |
| RotatingWriter.RotatingFile.OpenLogFile | output/rotate.go:372-378 | opens for append, creating the file if it is absent |
| RotatingWriter.RotatingFile.ReopenLiveFile | output/rotate.go:225-239 | opens the path and takes the size from Stat, or zero if Stat fails |
| RotatingWriter.RotatingFile.RecoverLiveFile | output/rotate.go:248-259 | drops the handle, reopens, and joins the cause with a reopen failure |
| RotatingWriter.RotatingFile.DoRotate | output/rotate.go:200-218 | close, rename, open fresh, prune, with recovery at each failure; what that prunes, reports and leaves is in RotationPruning |
| RotatingWriter.RotatingFile.WriteHealed | output/rotate.go:124-151 | rotates past the threshold, writes anyway if a file is open after a failed rotation |
| RotatingWriter.RotatingFile.Write | output/rotate.go:108-151 | refuses when closed, heals a missing live file, then writes; an open writer keeps its live file |
| RotatingWriter.RotatingFile.Sync | output/rotate.go:153-169 | nothing after Close, unavailable without a live file, else what syncing it reports |
| RotatingWriter.RotatingFile.Close | output/rotate.go:171-189 | closed for good; only the first Close can fail, and only with a live file |
| RotationTheorems.RenameKeepsIff | output/rotate.go:205 | a rotation keeps every earlier segment intact exactly when the backup name is none of theirs |
| RotationTheorems.WriteConservesIff | output/rotate.go:108-151 | one Write, whatever fails: the log grows by exactly the bytes reported and every segment pruning spared is intact, exactly when the Write does not rotate to the name of a kept segment, which is decided by the state and the environment before the call |
| RotationTheorems.TakenNotFound | output/rotate.go:263-277 | it rotates to such a name only if Lstat fails for that segment's file |
| RotationTheorems.RotationIntactIff | output/rotate.go:108-277 | a run of writes and failures leaves all spared segments intact in every state exactly when no Write of it rotates to the name of a kept segment |
| RotationTheorems.LogGrows | output/rotate.go:108-277 | then segments followed by the live file are the initial content followed by all bytes reported |
| RotationTheorems.RotationNeverLosesBytes | output/rotate.go:108-277 | both hold in every run in which Lstat fails for absent names only |
| RotationTheorems.LstatFailureLosesBytes | output/rotate.go:269-273 | an Lstat failure for an existing backup makes a rotation overwrite it |
| RotationTheorems.OthersUntouchedByRun | output/rotate.go:108-340 | entries that are neither the live file nor its backups never change, in any run |
| RotationTheorems.SyncFailsUntilHealed | output/rotate.go:153-169 | without a live file Sync keeps failing, and the writer unchanged, through any Writes whose reopen fails |
| RotationTheorems.WriteHealsIff | output/rotate.go:117-143 | a Write ends that exactly when its reopen succeeds and a rotation it needs does not lose the file again |
| RotationPruning.RotatesIff | output/rotate.go:108-151 | from an exact counter a Write moves the live file away exactly when there is one, it has content that p would push past the threshold, and close and rename succeed; it moves all of it, to the first free name of the stamp |
| RotationPruning.WritePrunesIff | output/rotate.go:200-218 | after a rotation whose fresh open and listing succeed, a backup is gone exactly when its rank is at least MaxBackups or it is past the age, and its removal does not fail |
| RotationPruning.RotatedWriteCaps | output/rotate.go:200-218 | a Write that rotated and returns nil leaves at most MaxBackups backups, if there is a cap |
| RotationPruning.QuietWriteKeepsBackups | output/rotate.go:108-151 | a Write that does not rotate leaves every backup as it is |
| RotationPruning.RunCaps | output/rotate.go:108-340 | a cap that is met stays met in every run whose rotating Writes return nil |
| RotationPruning.WriteNilIff | output/rotate.go:108-151 | a Write returns nil exactly when the writer is not closed, has or gets a live file that takes all of p, and a rotation it needs succeeds down to the last removal |
| RotationPruning.RefusalsIff | output/rotate.go:112-122 | the closed and the unavailable error come exactly from a closed writer and from a missing live file that cannot be reopened, alone and with nothing written or changed |
| RotationPruning.FaultsIff | output/rotate.go:200-340 | which of the other errors a Write joins: one for each step of the rotation that failed, for the recovery, the listing, and each backup due that could not be removed |
| RotationPruning.WrittenCount | output/rotate.go:124-151 | the count reported is what the live file took, none without one; a short write is an error |
| RotationPruning.SyncNilIff | output/rotate.go:153-169 | Sync succeeds exactly on a closed writer or a live file that syncs, and is unavailable exactly without a live file |
| RotationPruning.ClosedForGood | output/rotate.go:108-189 | after a Close, whatever is called then, every Write is refused, Sync has nothing to do, and the directory stays as it was |
| RotationSize.RotateSyncsIff | output/rotate.go:200-259 | a rotation leaves the counter exact unless it fails before the rename, recovers, and the recovery's Stat fails |
| RotationSize.WriteRespectsSize | output/rotate.go:108-151 | an exact counter stays the live length exactly when no Stat of a reopened file with content fails; then the bound below holds |
| RotationSize.BoundIff | output/rotate.go:108-151 | a nil Write of p leaves at most max(MaxSizeBytes, len p) bytes exactly when the counter does not hide from it that the file with content would pass the threshold |
| RotationSize.RunBoundedIff | output/rotate.go:108-259 | every nil Write of a run meets the bound exactly when none of them overfills so |
| RotationSize.SyncedRunBounded | output/rotate.go:108-259 | from an exact counter every nil Write meets the bound until a Stat is missed |
| RotationSize.MakeSucceedsIff | output/rotate.go:403-445 | the factory refuses an empty path, a threshold that is not positive, and a directory or file it cannot make or open, and nothing else |
| RotationSize.RunSyncedIff | output/rotate.go:108-259 | an exact counter is exact in every state of a run exactly when no Stat is missed, failed rotations and self-healing included |
| RotationSize.MakeSyncedIff | output/rotate.go:403-445 | the factory keeps existing content and all other entries, and starts with an exact counter exactly when its Stat succeeds or there is no content |
| RotationSize.FactoryRunSyncedIff | output/rotate.go:403-445 | from the factory on the counter is exact in every state exactly when neither the factory nor a Write missed a Stat, and then every nil Write meets the bound |
| RotationSize.FactoryStatBreaksBound | output/rotate.go:419-425 | a Stat that fails in the factory lets the first nil Write pass the threshold |
| RotationSize.StatFailureBreaksBound | output/rotate.go:231-236 | a failed Stat of a recovery lets a later nil Write pass the threshold |
| LineBreaks.Content.Strip | message/message.go:163-177 | the recursive loop removes the whole trailing run and records it, last character first |
| LineBreaks.Content.Restore | message/message.go:149-159 | appends the recorded characters in reverse |
| LineBreaks.StripIsMaximal | message/message.go:161-177 | the cut is the only one into a part not ending in a break and breaks alone |
| LineBreaks.RestoreAfterStrip | message/message.go:149-177 | whatever processing does, Restore puts the original run back behind it |
| LineBreaks.RoundTripIff | message/message.go:149-177 | Restore undoes Strip exactly when nothing was recorded before |
| LazyIdentity.LazyString.Get | message/util.go:30-41 | the generator runs only while the cell is unset; the value then never changes |
| LazyIdentity.GeneratedOnceAndShared | message/message.go:348-390 | in any interleaving of reads, copies and setters an identity is generated at most once and every member without a setter reads it |
| LazyIdentity.SetterIsLocal | message/message.go:202-258 | a setter fixes one member's value and leaves the others' cells alone |
| Pipeline.OutputUnit.ProcessProcessors | output/output.go:305-325 | the enabled, named processors run in order, none when the flag says skip |
| Pipeline.OutputUnit.GetFinalMaxLevel | output/output.go:256-268 | the output's maximum unless the debug variable names a level |
| Pipeline.OutputUnit.Emit | output/output.go:328-367 | formats unless skipping, restores, hands over the text, and fails when the writer does, except for a broken pipe or a closed file |
| Pipeline.OutputUnit.Write | output/output.go:230-286 | whether and what an output prints, and whether it reports an error, as the functions that PipelineFlags spells out |
| Pipeline.MaxEnabled | fastgate.go:76-92 | no enabled output's maximum exceeds the gate's |
| Pipeline.Sypl.FastGated | fastgate.go:61-93 | the one-pass loop decides the gate |
| Pipeline.Sypl.ProcessOutputs | sypl.go:877-943 | each eligible output gets its own copy, the others nothing; the errors the handler hears |
| Pipeline.Sypl.DoProcess | sypl.go:713-767 | one message: skip, filter, names, fields, tags, dispatch and whether it asks for the exit |
| Pipeline.Sypl.DoProcessAll | sypl.go:699-776 | every message of the call is dispatched so, and the process exits if any of those dispatched is fatal |
| Pipeline.Sypl.DoPrint | sypl.go:200-236 | an option-less print is the gate in front of the pipeline |
| PipelineFlags.WrittenIff | output/output.go:230-286 | an enabled and named output writes a dispatched message never if its processors leave Mute or SkipAndMute, always if they leave Force or SkipAndForce, and otherwise exactly when its level is neither none nor above the output's maximum, or the level SYPL_LEVEL names for it |
| PipelineFlags.ProcessedIs | output/output.go:305-325 | the enabled and listed processors act in order, each on what the one before left; on a message flagged to skip none does |
| PipelineFlags.WrittenText | output/output.go:327-345 | what is written is what the processors leave, formatted unless they leave a skipping flag, and the line breaks the message came with |
| PipelineFlags.DispatchedIs | sypl.go:732-761 | an output is handed the message with its content as it came, the tags of both, and the fields of both of which the message's own win |
| PipelineFlags.ExitsIff | sypl.go:718-776 | the process exits exactly for a fatal message that is not flagged SkipAndMute and whose logger the filter lets through, whatever the outputs do |
| PipelineFlags.PrintedIff | fastgate.go:61-93 | a print without options is written by the same rule unless the gate is on, no variable is set, and its level is above none, not fatal, and above every enabled output's maximum |
| PipelineFlags.PlainPrint | sypl.go:200-236 | an output without processors and formatter writes every printed content of its levels as it is, and nothing else, whether the gate is on or off |
| FilterEntries.FilterMatchIff | sypl.go:848-856 | the filter lets a logger through exactly when an entry between commas, without the space around it, is its name in any case |
| Text.EqualFoldIff | sypl.go:860-868 | names agree exactly when they differ in the case of letters only |
| PipelineTheorems.GateTransparentIff | fastgate.go:58-93 | the gate changes nothing exactly when it does not fire or no processor would have forced the message |
| PipelineTheorems.GateTransparent | fastgate.go:58-93 | with processors that never force, the gate changes nothing at any level |
| PipelineTheorems.GateRefinesPipeline | fastgate.go:41-93 | whole programs with reconfiguration print the same with the gate on and off |
| PipelineTheorems.PrintedText | output/output.go:230-366 | a fresh message prints its formatted, processed, stripped text and then exactly its own line breaks |
| ConcurrentOutputs.CopyRefines | message/message.go:348-390 | a copy on the shared memory, its slices aliased, stands for a fresh copy, and making it changes nothing |
| ConcurrentOutputs.PrepareRefines | sypl.go:732-761 | names, fields and tags are put into the message as the pipeline says, its tags in place |
| ConcurrentOutputs.SharedAppendIff | message/message.go:163-177 | of two appends to one slice the second is seen through the first's result exactly when there is spare capacity and the strings differ |
| CopyRaces.RacesIff | message/message.go:348-390 | some schedule has two outputs about to write one slot exactly when the message ends in a break, its list has spare capacity, and two outputs are eligible |
| CopyRaces.DeliveryRacesIff | sypl.go:877-926 | the same for a logger and the message its caller hands to it |
| CopyRaces.StrippedMessageRaces | message/message.go:163-177 | a message stripped of three breaks races on two outputs, one stripped of one break does not |
| CopyRaces.FreshMessageNeverRaces | message/message.go:39-45 | a message whose list has no array yet never races |
| CopyRaces.CollidingWritesAgree | message/message.go:163-177 | writes that collide assign the same character |
| ConcurrentOutputs.StepKeeps | sypl.go:906-926 | every step of every output's write keeps all copies on the course of the pure pipeline, though they append to one array |
| ConcurrentOutputs.DeliveryIsProcess | sypl.go:877-926 | in every interleaving each output writes exactly what the pure pipeline says, and the message the copies were made of stays as it was |
| ConcurrentOutputs.OutputsIsolated | sypl.go:877-926 | so each output writes what it writes when it is the only one, whatever the others do and in whatever order |
| ConcurrentOutputs.EveryWriteEnds | sypl.go:906-926 | no write waits for another, and all end after a bounded number of steps |
| ConcurrentOutputs.EveryDeliveryCompletes | sypl.go:877-926 | from the start of the writes every schedule is bounded, one that finishes them all exists, and every such one has written the pure pipeline's texts |
| ProcessorState.IsolatedIff | processor/dedup.go:185-188 | with stateful processors every output makes of its message what it would make of it alone, in all interleavings, exactly when no instance serves two outputs |
| PipelineTheorems.GlobalFieldsCarriedIff | sypl.go:742-749 | what a dispatched message carries: its own value, and a global one exactly when its fields map is not nil |
| PipelineTheorems.PrintCarriesGlobalFields | sypl.go:742-749 | a message printed without options carries exactly the global fields |
| PipelineTheorems.GlobalFieldPrintedIff | sypl.go:742-749 | seen from outside: an output without processors whose formatter prints the field prints the global value, or nothing when the map is nil |
| GoSlices.Append | sypl.go:615 | append writes into spare capacity only, or moves to a fresh array |
| Containers.SnapshotsAndCallersUndisturbed | sypl.go:571-696 | after any operations, slices the getters returned keep their elements and no slot of a caller's array was written |
| Containers.ContainersIsolated | with.go:23-52 | a container changes only when it is itself added to or replaced, whatever its parent, children and siblings do |
| Containers.Logger.constructor | sypl.go:950-969 | the factory's containers live in fresh arrays |
| Containers.SnapshotSurvives | sypl.go:610-661 | a slice from GetOutputs keeps its elements over a later AddOutputs and SetOutputs, which append all arguments and replace every output by the last argument of its name |
| Containers.ReplaceAllReplaces | sypl.go:632-653 | replacing argument by argument gives every place the last argument of its name, and leaves the others |
| Containers.AddImplements | sypl.go:610-617 | AddOutputs on the real arrays of all loggers is the step of the system the run theorems are about |
| Containers.SetImplements | sypl.go:632-653 | so is SetOutputs |
| Containers.ChildImplements | sypl.go:677-696 | and so is the derivation of a child |
| Containers.Logger.AddOutputs | sypl.go:610-617 | appends, leaving every slot below the old length as it was |
| Containers.Logger.SetOutputs | sypl.go:632-653 | in a fresh copy of the same length every output is the last argument of its name, in any case, or the old output if there is none |
| Containers.Logger.With | with.go:23-52 | a logger with the same settings, fresh containers with the parent's outputs and tags, the merged fields, and nothing existing modified |
| Containers.Logger.NewChild | sypl.go:677-696 | a logger of another name with the parent's level and status, containers and fields, and without its handlers and gate |
| DebugMatcher.LevelFrom | level/level.go:62-74 | the level whose name matches, none if none does |
| DebugMatcher.SearchIsSplit | debug/debug.go:47-51 | scanning for a mask finds the first whole entry of the comma-split, with its exact bounds |
| DebugMatcher.LevelIsSpecIff | debug/debug.go:126-159 | Level is the most specific of first component:output entry, first output entry and a bare first entry, for all contents of the variable, exactly when neither name contains a comma or a colon |
| DebugMatcher.FoundInWholeEntry | debug/debug.go:91-159 | a level found stands in a whole entry of its own scope, never in a piece of another |
| MatcherCache.Cache.New | debug/debug.go:202-234 | an undisturbed call is the sequence of atomic steps |
| MatcherCache.CacheStaysBounded | debug/debug.go:202-234 | with T concurrent callers the cache never exceeds 1024 + T - 1 entries in any interleaving |
| MatcherCache.CacheBoundAttained | debug/debug.go:209-219 | for every T some interleaving reaches that many |
| MatcherCache.HitIsShared | debug/debug.go:202-219 | once a pair's matchers are cached nothing replaces them, and whoever then begins with the pair is given them without compiling, in any interleaving |
| MatcherCache.CollisionGivesOthers | debug/debug.go:203 | two pairs with one key: the second caller is given the first one's matchers |
| MatcherCache.AlwaysOwnIff | debug/debug.go:191-234 | every caller always gets its own matchers exactly when no two pairs share a key; NUL-free names suffice |
| SlogHandler.AppendAttr | syplslog/handler.go:188-221 | appends what the attribute flattens to, in place or in a fresh array |
| SlogHandler.AppendAttrs | syplslog/handler.go:208-210 | ... and for a list of attributes |
| SlogHandler.FlattenIsLeaves | syplslog/handler.go:185-230 | the fields are the leaves of the tree in order, each under the dotted path of the named groups around it |
| SlogHandler.WithAttrsLaw | syplslog/handler.go:134-151 | h.WithAttrs(as) handles bs as h handles as followed by bs |
| SlogHandler.WithGroupLaw | syplslog/handler.go:153-167 | h.WithGroup(g) handles bs as h handles one group g of bs, empty names and empty groups included |
| SlogHandler.ChainLaw | syplslog/handler.go:134-183 | any chain of derivations handles a record as the original handles its meaning |
| SlogHandler.LastWins | syplslog/handler.go:119-127 | the map gives each key the last value it has among the fields |
| SlogHandler.KeysAreFieldKeys | syplslog/handler.go:119-127 | and has no other keys |
| SlogHandler.Handler.Clone | syplslog/handler.go:171-183 | equal attributes and groups in fresh arrays |
| SlogHandler.Handler.WithAttrs | syplslog/handler.go:137-151 | a new handler, nothing existing modified; the receiver itself for no attributes |
| SlogHandler.Handler.WithGroup | syplslog/handler.go:157-167 | a new handler, nothing existing modified; the receiver itself for an empty name |
| SlogHandler.LevelsAgree | syplslog/level.go:31-68 | a record never becomes fatal, severity is kept in order, and the levels round-trip except none and fatal |
| SlogHandler.LevelsBetween | syplslog/level.go:31-47 | a level between two standard ones is taken for the lower, one below debug for trace, one above error for error |
| SlogHandler.DerivedPrints | syplslog/handler.go:96-183 | so a derived handler prints what the original prints for the record with those attributes |
| SlogHandler.PrintedIs | syplslog/handler.go:96-132 | what a derived handler prints, spelled out in the attributes it collected and those of the record |
| SlogHandler.Handler.Handle | syplslog/handler.go:96-132 | the level mapped, the time, the message ending in a line break added only if missing, and for every key of all the attributes' leaves its last value and no other key; no fields exactly if there are no leaves |

## Left out

- Real files, writers, stdin, exit and logging calls: a directory, the written text and an exit flag stand for them.
- Timers: the interval flusher of the asynchronous output, Close waiting for it, the bounded flush on fatal; clocks and timestamps are parameters.
- The inner output's own behaviour: an inner write, flush or close that returns, fails or panics is one completing step, its error and the drop and error callbacks are not modelled.
- Finer interleavings than critical sections, and spurious wake-ups (Go's Cond has none); a broadcast wakes every parked thread, which then runs its loop in any order.
- Integer widths of counters and sequence numbers, overflow of size + len(p), and saturation of time differences; only the age cutoff of pruning wraps.
- Anybody else changing the log directory; the open handle is identified with the directory entry of the live path, rename is atomic, and a path and its base name are not told apart.
- DebugMatcher.LevelIsSpecIff: regular-expression metacharacters in names are not modelled, case folding is ASCII, and Go's regexp engine is represented by the anchored masks.
- DebugMatcher.FoundInWholeEntry: for names without commas and colons, with which `Level` reads other entries.
- Processors, formatters and generators are arbitrary pure functions of flag, processed text, tags and fields; processors with state of their own are those of the flow-control modules.
- FlowControl.ControlledOutput: for one stateful processor on an output without others, and messages processed one after the other.
- PipelineTheorems.GateTransparent: a processor that changes the message's level, or strips or restores it again, which it could through the message object, is not modelled; neither is one that keeps a message or writes into its name lists.
- PipelineTheorems.PrintedText: the same holds here.
- ConcurrentOutputs.OutputsIsolated: for processors without state of their own; `ProcessorState` has those with state, for the processing of a message alone.
- ConcurrentOutputs.DeliveryIsProcess: the same as for GateTransparent holds here, where a second strip by a processor could make two copies append different characters at the same place; a write of one array slot is one step, although Go calls two such writes of equal strings a race.
- Pipeline.Sypl.DoProcessAll: the messages of one call are distinct objects and are dispatched one after the other, where the code does so concurrently.
- SlogHandler.Handler.Handle: ends with the message it hands to PrintMessage; the print is that of the pipeline.
- The numeric values of levels and flags beyond their order and roles; the options of a print call; the io.Writer entry point; the leveled printer families and context helpers.
- Message tags are a set and the fields' values are strings; caller-supplied field maps are stored as they are, so no isolation is claimed for them.
- A caller that writes into its own slice, or appends to one a getter returned.
- Values of slog attributes are taken as resolved; LogValuers and their panics are not modelled, nor Handler.Enabled.
- Outputs for Elasticsearch, JSON and text formatters, colours, UUID and hash computation.
