# Statix: a verified model of the metrics path

Statix agents sample workloads on a node, roll the samples up into windows and post
the windows to a gateway, which coalesces rows into ClickHouse and serves a
dashboard. When the gateway is away, the agent spills batches to a segmented
write-ahead log on disk and replays them later. This project models that path in
Dafny and proves what it promises: what is kept, what may be lost and where, and in
what order things arrive. `dafny verify dfyconfig.toml` checks all of it.

How the files fit together:

- **The log as a queue.** `Spool.dfy` is an abstract machine: segments of tagged
  entries with write, rotate, evict, sync, peek, commit, collect and crash as steps,
  generic in what an entry holds. Its theorems are about every run.
  `Codec.dfy`, `SegmentReader.dfy` and `SegmentName.dfy` are the bytes: frames,
  headers, the frame walk, reads that come back short, file names. `Layout.dfy` and
  `StoreState.dfy` say what it means that a disk and the in-memory bookkeeping
  represent a spool state, with one lemma for each effect an operation can have.
  `WalStore.dfy` is the class `WalInner`; every method keeps the representation and
  logs the spool steps it took, so what holds for runs of the spool holds for the
  store; `Packing.dfy` is about how full segments are. `WalWriter.dfy` is the group
  commit, `Recovery.dfy` the startup walk over arbitrary files, `CrashRecovery.dfy` ties
  a crash and the recovery after it to the spool's crash step, `WalRuns.dfy` holds the results about interleavings of writer and
  drainer, `Durability.dfy` what a sync is worth in any run of the spool, and
  `Schedules.dfy` the results about every schedule of turns, replays, crashes and
  restarts.
- **The delivery pipeline.** `Pipeline.dfy` puts emitter, writer thread, drainer and
  retry worker around the spool as one step relation; `Circuit.dfy` is the breaker.
- **Windows and samples.** `Rollup.dfy` says what the fold of a window means,
  `Aggregator.dfy` is the double-buffered map, `Sampler.dfy` the CPU baselines,
  `Storage.dfy` the table that keeps one row per key, `Stimuli.dfy` what wakes the main
  loop and what that amounts to, for all cgroups and for one, and `Agent.dfy` the loop.
- **The gateway.** `Gateway.dfy` is the machine of requests, channel and writer,
  `GatewayServer.dfy` the loops that drive it, `TtlCache.dfy`, `Dashboard.dfy` and
  `RateLimiter.dfy` the dashboard's read tier.

Conventions. The checksum is a parameter, so nothing depends on how good CRC32 is.
I/O faults, clock readings, timer and scheduling outcomes are parameters of the
methods; what other threads do between two steps is a parameter too. Ghost fields
record history (all frames ever written, all events ever seen) and appear only in
specifications. A predicate whose body is compared with `true` means its body; the
comparison makes the verifier handle it as one fact. Where an operation of the source
is cut into several methods, the parts carry the same invariant.

Three places where the comments in the source and its code differ; the model follows
the code. `statix/src/wal/drainer.rs:93-94` says a replayed batch that fails delivery
is spilled again, but the retry worker keeps a batch in hand until it is accepted or
rejected. `statix/src/wal/recovery.rs:11-13` names `batch_id` as a deduplication key;
the table's key is node, window start and cgroup
(`deploy/clickhouse/01_init.sql:43`). `statix/src/wal/mod.rs:143-145` speaks of a cap;
it is not a hard limit.

Properties that fail, each with an input and the exact condition under which the code
does meet them:

- A payload that is empty or above 16 MiB is written but not read back:
  `Codec.UnreadableHidesTail`, `Codec.FrameReadsBackIff`.
- The backlog check misses frames after a failed rotation:
  `WalRuns.FailedRotationHidesBacklog`, `WalStore.WalInner.BacklogCheckSound`.
- The log can exceed `max_bytes`: `WalRuns.CapIsExceeded`. After an append it does so
  exactly if what the cap keeps, a header if a segment is due, and the frame do
  (`WalStore.WalInner.Append`, `WalStore.CapHoldsIff`, `WalStore.LongestFitMeans`); the
  bound that always holds is in `WalStore.WalInner.AppendOne` and `WalRuns.ReplayOne`.
- A half-open circuit is not re-opened by every failure, because the counter wraps:
  `Circuit.WrappedStaysHalfOpen`, `Circuit.ReopensIff`.
- The split probe can half-open a closed circuit: `Circuit.StaleProbe`,
  `Circuit.OpenMeansFailures`.
- A clock that does not advance makes two rows share a key and the table lose one:
  `Storage.StalledClockLosesRow`, `Storage.NoRowLostIff`.
- A node name containing `&q=` makes two dashboard questions share a cache key:
  `Dashboard.SeparatorCollides`, `Dashboard.KeyCollidesIff`.

## Model

| member | source | states |
|---|---|---|
| Codec.ParseEncoded | statix/src/wal/segment.rs:81-148 | a frame with a payload of 1 byte to 16 MiB, followed by anything, is read back with its payload and batch number |
| Codec.ParseTorn | statix/src/wal/segment.rs:115-148 | every strict prefix of a frame reads as the end of the segment |
| Codec.ParseSound | statix/src/wal/segment.rs:115-148 | bytes that read as a frame begin with exactly that frame's encoding |
| Codec.FrameReadsBackIff | statix/src/wal/segment.rs:131-134 | a written frame is read back if and only if its payload length is within 1..16 MiB |
| Codec.UnreadableHidesTail | statix/src/wal/segment.rs:131-134 | a frame outside that range, its length within 32 bits, makes recovery stop in front of it, whatever follows |
| Codec.SameHeader | statix/src/wal/segment.rs:56-77 | only the first 16 bytes decide whether a header is valid |
| Codec.ValidHeaderIff | statix/src/wal/segment.rs:56-77 | a file counts as a segment exactly if it has 16 bytes and starts with "STATXWAL" and the version 1 as four bytes, least significant first |
| Codec.FrameLayout | statix/src/wal/segment.rs:81-113 | a frame byte by byte: payload length modulo 2^32, checksum and batch number, each least significant byte first, in 4, 4 and 8 bytes, then the payload |
| Codec.ScanEncoded | statix/src/wal/recovery.rs:80-99 | walking encoded frames in front of any tail finds those frames, then what the tail decodes to |
| Codec.ScanSound | statix/src/wal/recovery.rs:80-99 | on any bytes the walk stops on a frame boundary: what it consumed is the encoding of what it found, and no frame follows |
| Codec.ScanOfPrefix | statix/src/wal/recovery.rs:80-99 | encoded frames cut anywhere decode to a prefix of the frames |
| Codec.SegmentRoundTrip | statix/src/wal/segment.rs:47-148 | header plus frames decode to exactly those frames, then end |
| Codec.ReadAtIndex | statix/src/wal/segment.rs:115-148 | the byte offset of the k-th frame is where reading yields the k-th frame |
| SegmentReader.ReadFullOrEof | statix/src/wal/segment.rs:157-174 | whatever pattern of short and interrupted reads, the buffer is filled, or the end was reached first |
| SegmentReader.ReadFrameAt | statix/src/wal/segment.rs:115-148 | reading through the file in pieces gives the same frame and next offset as decoding the bytes at the offset |
| SegmentName.NameRoundTrip | statix/src/wal/segment.rs:34-44 | the file name of every u64 segment number is `seg-`, 20 characters and `.wal`, and parses back to the number |
| SegmentName.NamesSortNumerically | statix/src/wal/segment.rs:34-44 | file names sort lexically in the numeric order of their segments |
| Spool.QueueStep | statix/src/wal/mod.rs:192-387 | what each step does to the queue: write pushes at the back, evict drops a prefix, commit pops the head, rotation, sync, peek and collection are invisible |
| Spool.StepKeepsInv | statix/src/wal/mod.rs:192-387 | every step, a crash included, keeps segment numbers rising, entries in the order written, the cursor inside the front segment, and every entry ever written accounted for |
| Spool.RunKeepsInv | statix/src/wal/mod.rs:192-387 | so does every run |
| Spool.CrashFreeDelivery | statix/src/wal/drainer.rs:76-102 | in every crash-free run committed entries are an in-order, duplicate-free part of what was written, and every entry passed over was evicted |
| Spool.PendingNamesHead | statix/src/wal/mod.rs:287-367 | across any writer steps the bare pending offset still names the peeked head, unless an eviction cleared it |
| Spool.CommitTakesPeeked | statix/src/wal/mod.rs:287-367 | after peek and any writer steps, commit pops exactly the peeked entry if nothing was evicted, and otherwise does nothing and the entry is among the evicted |
| Spool.CrashRecovers | statix/src/wal/recovery.rs:53-152 | after a crash the queue is the already committed entries of the uncollected front segment, then every synced undelivered entry in order, then what else survived |
| Spool.NothingLostButEvicted | statix/src/wal/writer.rs:26-64 | in every run whose crashes happen when all is synced, each entry ever written was committed, evicted or is queued |
| Spool.DroppedCounts | statix/src/wal/mod.rs:287-315 | over every crash-free run the counter of dropped batches counts each evicted entry, and beyond those only entries already committed |
| WalStore.WalInner.Empty | statix/src/wal/mod.rs:483-495 | the empty store represents the initial spool state |
| WalStore.WalInner.EnforceCap | statix/src/wal/mod.rs:287-315 | what stays is the longest run of newest segments that fits with the incoming frame, or the newest alone; nothing goes when the frame fits; the queue loses a prefix |
| WalStore.LongestFitMeans | statix/src/wal/mod.rs:287-315 | that run is a suffix that fits or cannot be shortened, and no longer suffix fits |
| WalStore.CapHoldsIff | statix/src/wal/mod.rs:192-195 | after a successful append the cap holds exactly if what was kept and the frame fit beside the header of a rotation; it is exceeded by more than a header only with a single kept segment |
| WalStore.WalInner.SyncActive | statix/src/wal/mod.rs:230-237 | afterwards every entry is synced and the last byte of the back segment is on the medium; nothing else changed |
| WalStore.WalInner.Rotate | statix/src/wal/mod.rs:254-283 | the old active segment is synced and retired, a new one with a header becomes the back, and a failure at any point leaves the queue intact and no segment active |
| WalStore.WalInner.EnsureActiveWithRoom | statix/src/wal/mod.rs:239-252 | the active segment stays, and nothing changes, if the frame fits under segment_bytes or the segment holds no frame; otherwise, or with none active, a new segment is started, numbered higher, unless the rotation fails; fails exactly if a rotation is due and fails |
| WalStore.WalInner.Append | statix/src/wal/mod.rs:192-218 | the queue loses at most a prefix to the cap, nothing if the frame fits, and gains the frame at the back; it fails exactly if the frame write does or a rotation is due and fails, and then only loses the prefix; short of a wrap batch numbers stay in order; the log is then exactly as large as what the cap keeps, a due header and the frame, and never more than the cap or the largest segment plus a header and the frame; a segment that takes the frame stays active whatever fails, and one that does not is replaced if the append succeeds; between calls no segment but the back one could have taken the frame that followed it, except those whose retiring append failed or that an earlier process wrote |
| WalStore.WalInner.RecoverActiveAfterError | statix/src/wal/mod.rs:223-228 | a torn write is cut back to the last frame boundary; the queue is as before |
| WalStore.WalInner.AppendOne | statix/src/wal/writer.rs:73-79 | an append with its repair keeps the invariant, the order of batch numbers and any bound that admits a full segment and a lone frame of this size, whatever fails; nothing is evicted if the frame and a header fit under the cap |
| WalStore.WalInner.PeekNext | statix/src/wal/mod.rs:319-359 | peek returns the head, leaves queue and history unchanged, says nothing only when the queue is empty, and terminates because each further pass deletes a segment; after it has said nothing the backlog check says no |
| WalStore.WalInner.GcFrontConsumed | statix/src/wal/mod.rs:371-387 | deletes the consumed segment under the cursor, or none if the cursor names no segment, and moves the cursor to the front; invisible to the queue |
| WalStore.WalInner.CommitPending | statix/src/wal/mod.rs:362-367 | commit pops the head if an advance is pending and does nothing otherwise |
| WalStore.WalInner.BacklogCheckSound | statix/src/wal/mod.rs:391-396 | with an active segment, no backlog means an empty queue; with a non-empty queue, the check says so exactly if a segment is active |
| Packing.PackedStep | statix/src/wal/mod.rs:239-252 | every step of the store but a crash keeps this: each segment behind the front was started because its first frame did not fit into the one before, unless that one is exempt |
| Packing.NothingExempt | statix/src/wal/mod.rs:239-252 | without exempt segments, for any two neighbours the bytes of the first and the first frame of the second exceed segment_bytes |
| WalRuns.FailedRotationHidesBacklog | statix/src/wal/mod.rs:255-268 | two appends, the second meeting a full segment and a failing rotation, leave a frame to replay and a backlog check that says no |
| WalRuns.CapIsExceeded | statix/src/wal/mod.rs:287-315 | two appends take the log to twice its cap |
| WalWriter.GroupCommit | statix/src/wal/writer.rs:26-65 | when the writer releases the lock everything written is on the medium, the history has grown by the written frames, the queue is the old one plus those less an evicted prefix, and exactly the old one plus those if all frames with a header each fit under the cap; every payload was written, in order, but those whose own append met a fault, short of a wrap batch numbers stay in order, and the disk stays within any bound that admits all of the frames |
| WalWriter.AppendAll | statix/src/wal/writer.rs:40-58 | during a turn fewer frames than fsync_frames are off the medium, or just the first one, besides those that were so before; without faults no segment is exempt from packing |
| WalRuns.ReplayOne | statix/src/wal/drainer.rs:76-102 | with writer turns between peek, send and commit, what is sent is the head at the peek, the commit pops that entry or nothing if it was evicted, and all that is left comes after it; over the whole exchange no segment exceeds a bound B that admits a full segment and every lone frame, the total stays at most max(max_bytes, B) + B, and the history records no crash |
| WalRuns.Drain | statix/src/wal/drainer.rs:55-74 | what is sent over any number of replays with writer turns in between are entries in log order, each committed in that order or evicted while being sent; the loop ends early only for want of room, on a read error or with the queue empty; on a store that never crashed delivery is in order, without repetition, and skips only what the cap evicted |
| WalRuns.DeliveredInOrder | statix/src/wal/drainer.rs:38-102 | every crash-free history of the store delivers in order and without duplicates |
| WalRuns.LostOnlyToTheCap | statix/src/wal/writer.rs:26-65 | a store whose crashes all found every entry synced has lost frames only to the cap |
| Durability.SafeStep | statix/src/wal/recovery.rs:53-152 | an entry that was committed, evicted or is on the medium undelivered stays so through every step, a crash at any moment included |
| Durability.SafeRun | statix/src/wal/recovery.rs:53-152 | and through every run, whatever crashes it has |
| Durability.WrittenIsSafe | statix/src/wal/writer.rs:26-65 | what the writer added by the time everything is synced is safe in that sense |
| Schedules.DoRestart | statix/src/wal/recovery.rs:53-152 | a crash between turns and the restart after it bring back the whole queue, preceded only by committed frames, with everything on the medium and batch numbers in order, and the log no larger |
| Schedules.DoCrashInTurn | statix/src/wal/writer.rs:26-65 | a crash in the middle of a turn, torn bytes included, takes nothing that completed turns wrote, and keeps the order of batch numbers if it only cuts files; from a synced log it takes at most max(fsync_frames, 2) frames, all of this turn |
| Schedules.RunSchedule | statix/src/wal/writer.rs:26-65 | over every schedule of writer turns, looks, commits and crashes with restarts, also inside turns, the completed turns wrote all that was asked for, in order, but requests whose own append met a fault, and every frame they wrote was committed, evicted by the cap or is queued; with crashes only between turns nothing is evicted if all that was asked for fits under the cap; without crashes delivery is in order and without repetition; live batch numbers rise across restarts if crashes fall between turns or only cut files; without crashes and faults no segment but the back one could have taken the frame that followed it |
| Recovery.WalkFrames | statix/src/wal/recovery.rs:80-99 | the reading loop computes the length, frame count and next batch number of the frame walk |
| Recovery.KeepsEncoded | statix/src/wal/recovery.rs:80-110 | a valid header, encoded frames and any tail: the frames are kept as a prefix |
| Recovery.CutsTornTail | statix/src/wal/recovery.rs:80-110 | a strict prefix of one more frame is cut off exactly |
| Recovery.Recover | statix/src/wal/recovery.rs:28-153 | the loop over arbitrary files keeps exactly those that have 16 bytes and start with magic and version, on disk and in the list, deletes the others, cuts the kept ones at a frame boundary, and rebuilds segments, totals, cursor, active segment and counters from what is left; the next segment number is one above the greatest found |
| Recovery.RecoveryIdempotent | statix/src/wal/recovery.rs:53-135 | recovering again yields the same files, segments, active segment and batch number |
| CrashRecovery.SyncedSurvive | statix/src/wal/recovery.rs:80-110 | whatever a crash leaves of a file's unsynced bytes, its synced frames are found again |
| CrashRecovery.RecoveredSound | statix/src/wal/recovery.rs:53-152 | recovery after a crash at any point restores the store invariant, with the spool's crash step as its meaning |
| CrashRecovery.RestartKeepsOrder | statix/src/wal/recovery.rs:82-92 | if a crash leaves a prefix of every file, batch numbers that were in order are in order after the restart, and the next one is above them all and not above where it was |
| CrashRecovery.Reopen | statix/src/wal/mod.rs:498-523 | the reopened store's queue is the replayed prefix, then every synced undelivered frame, then survivors of the unsynced tail; a store with everything on the medium comes back as large, with nothing added, everything on the medium, and batch numbers in order; so are they after any crash that leaves prefixes of the files |
| Pipeline.KeepsConserved | statix/src/output.rs:246-294 | every step of emitter, writer, drainer or worker moves each batch between places and neither makes nor loses one |
| Pipeline.KeepsInOrder | statix/src/wal/drainer.rs:76-102 | through all interleavings what the drainer handed on, holds and may still hand on stays in log order |
| Pipeline.EveryBatchIsLocated | statix/src/output.rs:124-174 | in every crash-free run, from any undelivered log, each batch that arrived or was in the log is in one of the queues or hands, was acknowledged or rejected, or was lost at a named site; the queue bounds 60 and 256 hold |
| Pipeline.NoBatchTwice | statix/src/output.rs:246-294 | in every such run no batch enters the retry queue or is acknowledged twice, and the log is replayed in order |
| Pipeline.RunsInOrder | statix/src/output.rs:101-133 | in every such run the retry queue is first in, first out: what left it, to the worker or dropped, is in order the earliest part of what entered it, from emitter and log; what the worker acknowledged or rejected is what it took, in order; and the log is in the order of arrival |
| Pipeline.EarliestLeaves | statix/src/output.rs:125-133 | the worker takes, and the emitter drops, the earliest batch that entered and is still queued |
| Pipeline.SpillsOnlyWhenFull | statix/src/output.rs:246-262 | in every such run an arriving batch is spilled exactly if 60 batches are queued, and otherwise queued behind them |
| Pipeline.RoutedBecause | statix/src/output.rs:216-294 | each loss, each spill, each replay and each outcome of a post happens exactly for its reason: queue of 60, channel of 256, lock held, failed append, status 2xx, 429, 5xx or other |
| Pipeline.ZeroLoss | statix/src/output.rs:246-262 | in every such run in which the log takes what is spilled, evicts nothing and no append fails, and no post is rejected, nothing is dropped anywhere; with nothing on its way every batch is acknowledged |
| Pipeline.AnswerMeans | statix/src/output.rs:216-244 | the worker gives a batch up after an answer of the gateway exactly if its schema is outside 2..4, and is done with it exactly if its rows were taken or there are none |
| Pipeline.NeverDiscarded | statix/src/output.rs:152-170 | in every run against the gateway, whatever its database and channel do, no batch of the agent is given up |
| Circuit.ClosedIffFewFailures | statix/src/wal/mod.rs:65-109 | after any run of atomic steps the circuit is closed exactly if fewer than three failures followed the last success, although the counter wraps |
| Circuit.ReopensIff | statix/src/wal/mod.rs:94-103 | a failure re-opens a half-open circuit exactly when the failures so far, modulo 256, are at least two |
| Circuit.WrappedStaysHalfOpen | statix/src/wal/mod.rs:94-103 | after 256 failures and a probe, one more failure leaves the circuit half-open |
| Circuit.OpenMeansFailures | statix/src/wal/mod.rs:105-109 | with the probe's load and store apart, open still implies three failures since the last success |
| Circuit.StoreNeedsOpenLoad | statix/src/wal/mod.rs:105-109 | over every split run the store half-opens the circuit exactly if the drainer's last load, with no store since, found it open; otherwise it changes nothing |
| Circuit.StaleProbe | statix/src/wal/mod.rs:105-109 | a run in which the split probe half-opens a closed circuit |
| Circuit.Cell.RecordPostFailure | statix/src/wal/mod.rs:94-103 | after everything recorded so far, the circuit is closed exactly with fewer than three failures since the last success, the third opens it, and a half-open one re-opens exactly if the wrapped count stood at two or more |
| Circuit.Cell.RecordPostSuccess | statix/src/wal/mod.rs:85-92 | a success closes the circuit and ends the run of failures |
| Circuit.Cell.TryHalfOpen | statix/src/wal/mod.rs:105-109 | after a probe the circuit is half-open exactly with three or more failures since the last success |
| Rollup.FoldMeans | statix/src/aggregator.rs:86-148 | counts and CPU are the totals of the window's events capped at the counter's width, the maximum is attained, last value and labels are those of the last event, and a cgroup has stats exactly if it has events; without samples there is no last value |
| Rollup.OwnStats | statix/src/aggregator.rs:86-148 | the stats of a cgroup sum up its own events of the window and no others |
| Aggregator.Aggregator.Flush | statix/src/aggregator.rs:167-213 | a batch lists the fold of its window once per cgroup, spans the clock readings of the previous flush and of this one, and the inactive buffer is empty again; an empty window yields none |
| Aggregator.Aggregator.TryEarlyFlush | statix/src/aggregator.rs:151-165 | flushes exactly when the active buffer reached the key limit, as a flush at that clock reading, and leaves it below |
| Aggregator.Aggregator.OnEvent | statix/src/aggregator.rs:80-148 | one more event is in the open window, which is flushed exactly if it then holds as many cgroups as the limit; the clock readings grow only by that flush |
| Aggregator.TotalsMatchEvents | statix/src/aggregator.rs:80-213 | below saturation, emitted rows plus the active buffer give the exec, sample and CPU totals of all events seen |
| Sampler.Sampler.CpuDelta | statix/src/memory_sampler.rs:161-173 | the increase over the baseline, never negative, or nothing on the first reading; the reading becomes the baseline |
| Sampler.Sampler.Prime | statix/src/memory_sampler.rs:32-56 | priming starts a new stretch for each cgroup read and bills nothing |
| Sampler.Sampler.Tick | statix/src/memory_sampler.rs:58-142 | the memory sample and the CPU delta of each reading are fed, in order, and notes and baselines follow; whatever was read, failed or missing, the CPU events so far add up to the growth of each cgroup's counter over its stretches of presence; a failed tick changes nothing; a rising clock stays ahead of the readings of all flushes |
| Sampler.CpuConserved | statix/src/memory_sampler.rs:58-142 | CPU in emitted rows plus the active buffer is the growth of the counter over the cgroup's stretches |
| Sampler.BillIsSpans | statix/src/memory_sampler.rs:161-173 | for a counter that never decreases this is, stretch by stretch, last minus first: no gap is billed |
| Sampler.BillIgnoresFalls | statix/src/memory_sampler.rs:161-173 | for any counter the bill is last minus first plus all falls: a decrease is billed as nothing |
| Storage.KeysAreUnique | statix/src/aggregator.rs:167-213 | in every history of the aggregator whose clock readings advance, no two emitted rows share node, window start and cgroup |
| Storage.KeysAreUniqueIff | statix/src/aggregator.rs:167-213 | exactly: keys are distinct if and only if no two windows of a node opened at equal clock readings saw the same cgroup |
| Storage.ExactlyOnceRows | deploy/clickhouse/01_init.sql:41-43 | however often and in whatever order whole batches are replayed, the table holds exactly the emitted rows |
| Storage.ExactlyOnceTotals | deploy/clickhouse/01_init.sql:41-43 | and its CPU sums are those of the emitted rows, hence of the events |
| Storage.NoRowLostIff | deploy/clickhouse/01_init.sql:41-43 | however batches are replayed and whatever the clock did, the table has as many rows as were emitted exactly if no two windows of a node opened at equal clock readings saw the same cgroup |
| Agent.SampleAndFlush | statix/src/main.rs:257-271 | the end of a window feeds what the tick amounts to and closes the window at the next clock reading; the sampler's account holds, and a rising clock stays ahead |
| Agent.Startup | statix/src/main.rs:106-107 | priming sets the baselines and bills nothing, and the aggregator starts empty at the first clock reading |
| Agent.MainLoop | statix/src/main.rs:118-210 | over every sequence of kernel events and window ends, the events seen and the readings noted are exactly what the stimuli amount to, every end of a window closes it at the clock reading after those of its tick, nothing is open after a final one, the sampler's account holds, and a rising clock stays ahead |
| Agent.RunAgent | statix/src/main.rs:106-210 | from startup on, every end of a window closes it; in every run with a rising clock, every emitted row has a key of its own, and every table that merged the emitted batches, replayed in any way, accounts with the open window for the growth of each unsaturated cgroup's counter while it was present, and does so alone after a run that ends with a window; the windows cut the own course of every cgroup into consecutive parts, and each emitted row has the totals, the greatest and last memory sample and the last labels of its part |
| Stimuli.OwnEvents | statix/src/memory_sampler.rs:58-173 | cgroups do not influence each other: in every run the events of one are, in order, the kernel's events about it, a sample with the bytes and labels of each successful memory reading, and after each further counter reading the increase since the last, labelled likewise; a tick without the cgroup forgets its counter |
| Sampler.SomeClockRises | statix/src/main.rs:118-210 | there are such clocks from every start |
| Agent.TableAccountsForCpu | statix/src/main.rs:118-210 | in a history with advancing readings the CPU the table holds for a cgroup plus the open window is the growth of its counter over its stretches of presence |
| Storage.StalledClockLosesRow | statix/src/aggregator.rs:167-213 | two flushes at the clock reading of the start, each with the same event: whatever the table keeps, it keeps fewer rows than were emitted |
| Gateway.Respond | statix-gateway/src/routes/ingest.rs:45-92 | each answer has its exact condition, in the order of the checks: unsupported schema, unhealthy database, no rows, closed channel, no room for all rows, accepted |
| Gateway.StepKeepsInv | statix-gateway/src/routes/ingest.rs:76-100 | every channel operation keeps queued plus reserved within capacity, batches bounded and non-empty, batches and channel in the order sent, and each request's contribution a prefix of its rows or nothing |
| Gateway.RunKeepsInv | statix-gateway/src/routes/ingest.rs:76-100 | so does every interleaving |
| Gateway.RowsConserved | statix-gateway/src/clickhouse_writer.rs:141-252 | in every run accepted rows are inserted, dropped, in the writer's hand, queued or reserved |
| Gateway.AllOrNothing | statix-gateway/src/routes/ingest.rs:76-100 | a request with nothing left to send contributed all of its rows in order, or was refused and contributed none |
| Gateway.SendNeverBlocks | statix-gateway/src/routes/ingest.rs:95-100 | an accepted request can always send its next row within capacity |
| GatewayServer.Server.IngestInner | statix-gateway/src/routes/ingest.rs:45-110 | with anything happening between its sends, the request's rows enter the channel in order and completely, or not at all; the status is 200 exactly if all of them, possibly none, are in |
| GatewayServer.Server.FillBatch | statix-gateway/src/clickhouse_writer.rs:141-167 | one batch of 1 to batch_max rows in channel order; none exactly when the channel ran dry; short only if the channel was empty or the timer fired at the pass that ended it |
| GatewayServer.Server.FlushWithRetry | statix-gateway/src/clickhouse_writer.rs:214-252 | at most five attempts, stopping at the first success; the batch is recorded once as inserted or dropped; the health flag is the last outcome; waits are 100, 200, 400, 800 ms before jitter, so the 2 s ceiling is never reached |
| GatewayServer.Server.DrainFinal | statix-gateway/src/clickhouse_writer.rs:169-197 | everything left is handed over in bounded batches; with nothing left nothing is flushed |
| GatewayServer.Server.WriterLoop | statix-gateway/src/clickhouse_writer.rs:106-112 | every round settles one batch, and once the channel runs dry the batches concatenate to everything ever sent |
| TtlCache.OldestUnpinned | statix-gateway/src/routes/dashboard/cache.rs:60-64 | the victim is an unpinned entry that no unpinned entry is older than; none only if all are pinned |
| TtlCache.TtlCache.Get | statix-gateway/src/routes/dashboard/cache.rs:43-53 | a hit is the latest body put for the key within the lifetime; a pinned key hits exactly when there is one |
| TtlCache.TtlCache.Put | statix-gateway/src/routes/dashboard/cache.rs:55-76 | the entry becomes the latest of its key and no other changes; at most one fresh entry is given up, only if the cache is full of other keys, and it is an oldest unpinned one; while keys are pinned consistently the size is at most max_entries or the pinned ones plus one; expired entries that are not pinned are gone |
| Dashboard.Normalize | statix-gateway/src/routes/dashboard/mod.rs:129-156 | range, limit and texts are within their bounds, and no text is present but empty |
| Dashboard.NumbersMean | statix-gateway/src/routes/dashboard/mod.rs:129-156 | range 300 and limit 100 by default, moved into 60..3600 and 1..max_limit |
| Dashboard.NamesMean | statix-gateway/src/routes/dashboard/sql.rs:28-72 | exactly which names choose which column and direction; any other means CPU, descending |
| Dashboard.TextsMean | statix-gateway/src/routes/dashboard/mod.rs:129-156 | a search of more than 64 characters is cut, such a node ignored, and blank texts are absent |
| Dashboard.HotViewIff | statix-gateway/src/routes/dashboard/mod.rs:174-176 | exactly which requests are for a pinned view |
| Dashboard.NormalizeRoundTrip | statix-gateway/src/routes/dashboard/mod.rs:129-156 | a normal query with clean texts is what normalizing its own parameters gives, sort and order names included |
| Dashboard.KeyCollidesIff | statix-gateway/src/routes/dashboard/mod.rs:159-170 | two normalized queries share a key exactly if they are equal or differ only in where a literal `&q=` is read |
| Dashboard.KeyIsQuestion | statix-gateway/src/routes/dashboard/mod.rs:159-170 | queries whose nodes do not contain `&q=` and that share a key are equal |
| Dashboard.SeparatorCollides | statix-gateway/src/routes/dashboard/mod.rs:159-170 | two different queries with the same key |
| Dashboard.PinnedByKey | statix-gateway/src/routes/dashboard/mod.rs:174-176 | the key decides whether a view is pinned, for all queries |
| Dashboard.StateHandler | statix-gateway/src/routes/dashboard/mod.rs:336-371 | with other requests storing answers while this one is built, the answer is to the question asked, unless a node contains `&q=`; a hit was stored within the lifetime; a hot view stored within the lifetime is not built again; answers are only replaced by later ones; it is a hit exactly if the cache holds an answer within the lifetime |
| Dashboard.Serve | statix-gateway/src/routes/dashboard/mod.rs:336-371 | over any sequence of requests each hit is the answer then on record, within its lifetime, each miss answers and records what was built, no hot view is built again within the lifetime of an answer built for it, and the cache keeps its size bound |
| RateLimiter.RateLimiter.Allow | statix-gateway/src/routes/dashboard/cache.rs:108-124 | a request passes exactly if its window has expired or has room left; the history stays lawful |
| RateLimiter.SlidingBound | statix-gateway/src/routes/dashboard/cache.rs:100-124 | with windows at least one length apart and each within its limit, no half-open interval of that length lets through more than twice the limit |
| RateLimiter.BoundIsAttained | statix-gateway/src/routes/dashboard/cache.rs:100-124 | for every limit and every window of at least two ticks, calls that let through twice the limit within one window's length |

## Left out

- WalStore.WalInner.Append: requires a payload of 1 byte to 16 MiB, because a frame outside that range is written but never read back; Codec.FrameReadsBackIff and Codec.UnreadableHidesTail state what happens to one.
- WalStore.WalInner.AppendOne: the same; so do WalWriter.GroupCommit and the schedules built from it.
- WalWriter.GroupCommit: requires payloads of 1 byte to 16 MiB, as Append does.
- Codec.UnreadableHidesTail: requires a payload below 4 GiB; above that the 32-bit length field truncates, and whether the reader then takes a prefix of the payload for a frame depends on the checksum. Codec.FrameReadsBackIff covers those payloads too.
- Recovery.Recover: files that exist but cannot be opened or read are not modelled; the source skips them, and their frames stay away until a later restart can open them.
- Pipeline.EveryBatchIsLocated: batches are assumed readable, so a batch above 16 MiB that the log cannot read back is not a place of its own; a recovered log's batches are renumbered from zero.
- Pipeline.NeverDiscarded: speaks of the answers of `ingest_inner`; a refused bearer token or an unreadable body is answered with another 4xx and not modelled.
- Pipeline.NoBatchTwice: crash-free runs only; after a restart batches of the uncollected front segment are delivered again, which the table undoes.
- Recovery.RecoveryIdempotent: does not claim the same next segment number, which is lower the second time if the highest-numbered file had been deleted for its header.
- Schedules.RunSchedule: claims no order of batch numbers after a crash inside a turn that leaves anything but prefixes of the files, since such bytes may decode to any frame; says nothing is evicted only for crashes between turns, since a crash inside one may leave frames that were never asked for; frames whose turn did not complete may be lost.
- CrashRecovery.RestartKeepsOrder: assumes that a crash leaves a prefix of each file's bytes; other bytes may decode to frames with any batch number. The other crash results allow any bytes after the synced length.
- WalStore.WalInner.Rotate: segment numbers are unbounded, so their wrap at u64 is not modelled; batch numbers do wrap in the model.
- Failures of set_len, seek, remove_file and fdatasync, and lost directory entries: the code ignores or only logs them; the model assumes that they succeed.
- CrashRecovery.Reopen: assumes that a crash does not bring back bytes that a set_len had cut off, so a file is never longer after a crash than before.
- Foreign file names in the log directory: the disk is a map from segment number to file, so only names the writer produces occur.
- The fields of the store are one record-valued field of `WalInner`; each method assigns them together where the source assigns them one after another under the same lock.
- Emitter and retry worker are steps of `Pipeline`, not methods: every blocking call is a point where other threads act, and the step relation has all of those interleavings. Backoff, jitter and recovery spread only delay steps and are not in it.
- The drainer's sleeping and waking, the linger timer and shutdown order: a choice of the next step; no claim is made that anything eventually happens, that the health flag recovers or that the writer's shutdown finishes.
- GatewayServer.Server.DrainFinal: without the source's branch for a full batch at the top of the loop, which cannot be reached with batch_max of at least one.
- An insert that the database performed but did not acknowledge counts as failed in `GatewayServer`; the table's deduplication makes that harmless.
- Poisoned locks in the dashboard: no code path panics while holding one.
- TtlCache.TtlCache.Put: makes no claim about the size when one key is put both pinned and unpinned; Dashboard.PinnedByKey shows that the dashboard does not do that.
- Dashboard.Normalize: trimming and lower-casing are parameters; the Unicode tables are not modelled.
- The order in which a hash map is iterated is arbitrary in the model.
- Random batch ids, agent version, labels as looked up in Kubernetes, and the mapping of a row to its database columns: carried along without influence.
- The eBPF program and loader, the Kubernetes watcher, cgroup file parsing, quantity parsing, the HTTP client and server, authentication, metrics, logging, environment parsing, the dashboard's SQL and page: not part of this model.
