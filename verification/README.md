# Verified model of the replicated key-value node

A node applies the entries that raft commits. `Apply` changes an in-memory map at once and hands the row
to an asynchronous batch writer; a SQLite table follows behind a bounded channel, a batch slice and a
synchronous fallback that jumps the queue. A dedup store with a time to live drops retried commands.
Snapshots are read from the table and installed into it under synthetic indices. This project models
those parts and proves that map, table, queue and log agree after any interleaving, crash, re-delivery,
snapshot or failed insert, and states exactly when they do not.

## How it is organised

- `Rows`, `CommittedLog`: the table as a value (INSERT OR IGNORE, the fold of ORDER BY idx, synthetic
  rows) and the log as the reference: a put is effective when it is the first put with its idempotency
  key; `KvAt` and `EffTable` are the map and the rows that a prefix of the log stands for.
- `KeyValue`, `Sqlite`, `Dedup`, `BatchWriting`, `Fsm`, `Forwarding`, `Metrics`: the program's objects as
  classes whose methods update fields. Each method is tied to a step function of the state machines
  below. Calls that can fail take a `Fault` saying where; times, the scheduler's choices and the network
  are parameters.
- `WriteQueue`, `WriteQueueTheorems`: the batch writer as a state machine, one step per select arm, send
  and transaction. `BatchWriting.ProgramRefinesMachine` shows that the class is a refinement of it,
  entry by entry, so what holds of every run holds of the program.
- `Node`, `Recovery`: a node over its whole life: deliveries, worker steps, cleaner passes, snapshots
  taken and installed, crashes at any point, recoveries. `Node.Inv` holds in every reachable state and
  the theorems of `Recovery` follow from it.
- `Provisos`, `Restoring`, `Failures`: for each assumption of the node machine, the exact condition under
  which the code meets its promise (`Provisos` for idempotency keys, `Restoring` for what a restore of any
  map over any queue leads to), and a run in which it does not.
- `ExactlyOnce`: retries only add copies, and copies change nothing; from a client's 200 to the table.

## What is assumed

Raft's contract: every node is fed a prefix of one log with strictly increasing indices from 1 on, gaps
allowed. A restart delivers from the first entry, or restores raft's latest snapshot first. A snapshot
installed from another node is the exact map at its position (`Recovery.SnapshotsAreExact` is the proof
for the node that took it). Transactions are atomic. `Apply`, `Snapshot` and `Restore` run on one
goroutine, so each is one step; the worker and the cleaner run between them.

The events of the node machine carry these guards, without which the guarantees fail:

- Deliver: an idempotency key that this process applied and then evicted does not come back
  (exact: `Recovery.VerdictExactIff` entry by entry, `Provisos.EvictionInvisibleIff` for whole runs; a retry
  within the time to live is enough, `Provisos.RetryWithinTtl`; a run without it:
  `Failures.EvictedRetryGoesBack`);
- Install and Recover: an idempotency key used on both sides of a restored snapshot is one that this
  process applied itself, since the dedup state is not part of a snapshot; a process just started has
  applied none (exact: `Provisos.CleanCutIff`; a run without it: `Failures.StraddlingRetryGoesBack`);
- Install: channel and batch are empty; Recover: the snapshot was exact when it was taken. `Restoring` does
  without both: for any map restored in any reachable state, with anything queued, it says exactly what
  live map and table are after any deliveries without a failed insert (`Restoring.RestoredMapIff`, `Restoring.RestoredTableIff`,
  `Restoring.AnyRestoreIff`). Runs without them: `Failures.UndrainedRestoreGoesBack`,
  `Failures.SnapshotMissesAppliedEntry`, `Failures.SwallowedWrite`.

Snapshots may be taken at any time after the first entry, also while the table is behind the live map or
ahead of the entries consumed; when they are exact is `Recovery.SnapshotKeyIff` and
`Recovery.SnapshotsAreExact` (a caught-up table with nothing stale pending is enough,
`Node.NothingStaleIsSafe`).

## Where the code and its comments disagree

- README.md of the repository shows the dedup store as `map[string]bool` and Apply as a synchronous
  append; the code has time-stamped keys and the batch writer, and so has the model.
- store/batch.go:23 says entries are never silently dropped; a failed transaction discards its batch
  (`WriteQueueTheorems.FailedFlushDrops`; which rows are missing: `WriteQueueTheorems.RowMissingIff`).
- main.go:171-189 signals the worker and closes the database without waiting for it; queued rows can be
  lost (`WriteQueueTheorems.ShutdownCanLoseARow`; exactly when: `WriteQueueTheorems.CloseCompleteIff`).

## Model

| member | source | states |
|---|---|---|
| KeyValue.KV.constructor | store/kv.go:17-19 | a new live map is empty |
| KeyValue.KV.Set | store/kv.go:22-26 | sets one key and leaves every other as it was |
| KeyValue.KV.Get | store/kv.go:30-35 | found exactly when the key is there, and then its value; otherwise the empty string and false |
| Sqlite.SqliteLog.Append | store/sqlite.go:90-96 | an existing row with the same idx wins; a failed call changes nothing |
| Sqlite.SqliteLog.Replay | store/sqlite.go:100-119 | with the database open, succeeds exactly when the query, every row and the end of the iteration went well and no callback failed, and then the callback has run once per row in idx order, whatever it is |
| Sqlite.NoneAborted | store/sqlite.go:108-118 | the callbacks run over all rows if and only if none of them, each called on what the ones before it left, returned an error |
| Sqlite.ReplayIsFold | main.go:89-94 | with the callback of start-up and Snapshot, that overlays the last-writer-wins fold of the table on the given map |
| Sqlite.SqliteLog.ReplaceAll | store/sqlite.go:131-158 | success leaves exactly rows 0..n-1, one per key, in some iteration order; a closed database, a failed begin, a failure at one of the inserts or a failed commit leaves the old table and is reported |
| Sqlite.ReplaceAllReplays | store/sqlite.go:131-158 | round trip: for every map and every iteration order, replaying what ReplaceAll wrote rebuilds that map |
| Rows.WinnerDecides | store/sqlite.go:100-119 | the row with the largest idx of a key decides its replayed value |
| Rows.WinnerExists | store/sqlite.go:100-119 | every replayed key has such a row |
| Rows.FoldSeqOfRows | store/sqlite.go:100-119 | setting keys row by row over the ordered result is that fold |
| Rows.InsertAllRows | store/batch.go:158-179 | a batch never changes an existing row, adds only rows of the batch, and leaves every idx of the batch present |
| Rows.InsertAllPermuted | store/batch.go:85-101 | with distinct indices, the order of inserts does not matter |
| CommittedLog.SyntheticRowsBelowCut | store/sqlite.go:143-155 | pigeonhole: an exact snapshot after n entries has at most n keys, and all its synthetic rows lie below every later raft index |
| Restoring.NothingSwallowedIff | store/sqlite.go:143-155 | any snapshot restored at s: no later effective put finds its index taken by a synthetic row if and only if the snapshot has no more keys than the index of any of them |
| Failures.SwallowedWrite | fsm/fsm.go:123-163 | a life in which a snapshot taken while the table is ahead of the entries consumed has three keys at position 1, and its restore swallows the second entry: consumed, drained, and lost at the next start-up |
| CommittedLog.KeysGrow | fsm/fsm.go:157-160 | puts never remove keys, which is why Restore may overlay instead of clearing |
| CommittedLog.FoldFollowsLog | store/sqlite.go:100-119 | a table that starts from a snapshot and then holds the rows of the effective puts replays to the log's map, whatever order they were written in |
| CommittedLog.FoldOfEffTable | fsm/fsm.go:75-116 | the rows of the deduplicated log replay to its last-writer-wins map |
| Dedup.Store.IsDuplicate | dedup/dedup.go:116-124 | the empty key is never a duplicate, any other exactly while remembered |
| Dedup.Store.MarkSeen | dedup/dedup.go:128-135 | stamps one non-empty key with the current time |
| Dedup.Store.Evict | dedup/dedup.go:95-112 | keeps a key, with its stamp, exactly while now is at most ttl past the stamp |
| Dedup.Store.Cleaner | dedup/dedup.go:77-88 | the passes before the stop signal, with what Apply's goroutine does to the store between them, leave the store of a timed run |
| Dedup.PassesAreOne | dedup/dedup.go:77-88 | any number of passes with nothing marked between them equals one pass at the last tick |
| Dedup.Store.Len | dedup/dedup.go:139-143 | the number of remembered keys |
| Dedup.StampsAreApplications | dedup/dedup.go:116-135 | over any run, a remembered stamp is the time the key was applied by a put: duplicates never refresh it and unknown ops never set it |
| Dedup.DedupWindow | fsm/fsm.go:84-110 | in one process lifetime under a monotone clock, two applications of one key are more than ttl apart |
| Dedup.RetainedForTtl | dedup/dedup.go:95-112 | an applied key stays a duplicate for at least ttl, in every run |
| Dedup.ForgottenInTime | dedup/dedup.go:77-112 | if every tick of the schedule gets its pass within a delay, nothing older than ttl + cleanInterval + delay is remembered; on time, nothing older than ttl + cleanInterval |
| Dedup.SizeBound | dedup/dedup.go:139-143 | the map never holds more keys than were applied since the last pass minus ttl |
| WriteQueueTheorems.Reachable | store/batch.go:85-153 | over every run: sent = channel + batch + offered + dropped as multisets; the channel path is FIFO through every transaction; transactions carry 1..flushSize rows before the final drain; the table is the offered rows on top of the old ones |
| WriteQueueTheorems.OvertakingIsHarmless | store/batch.go:85-101 | drained without failure, the table is that of one in-order append per entry, for any split between channel and fallback and any flush schedule |
| WriteQueueTheorems.RowMissingIff | store/batch.go:119-124 | an entry's row is missing exactly while it is queued or batched, or for good once its insert failed |
| WriteQueueTheorems.TableIsPrefixOfSent | store/batch.go:114-137 | without fallback and failure the table always holds a prefix of what was sent, the rest being batch then channel |
| WriteQueueTheorems.LateByEvent | store/batch.go:139-150 | only a send after the stop signal can be stranded in the channel |
| WriteQueueTheorems.ExitCompleteIff | store/batch.go:139-150 | when the worker has exited, everything sent was written if and only if nothing failed and nothing was queued after the drain saw an empty channel |
| WriteQueueTheorems.CleanStopWritesAll | store/batch.go:103-107 | no send after Stop and no failure: at exit channel and batch are empty and every row is there |
| WriteQueueTheorems.CloseCompleteIff | main.go:175-189 | everything sent reaches the table if and only if channel and batch were empty and nothing had failed when the database was closed |
| WriteQueueTheorems.ShutdownCanLoseARow | main.go:175-189 | a run in the program's shutdown order that loses a queued row |
| WriteQueueTheorems.FailedFlushDrops | store/batch.go:116-126 | a run in which a failed transaction forgets its entry |
| BatchWriting.BatchWriter.constructor | store/batch.go:43-60 | a new writer shares the log's database and has nothing queued |
| BatchWriting.BatchWriter.Send | store/batch.go:85-101 | queued at the end of the channel while there is a free slot, otherwise inserted at once ahead of everything queued, which may fail |
| BatchWriting.BatchWriter.Stop | store/batch.go:105-107 | only signals; nothing is drained here |
| BatchWriting.BatchWriter.Run | store/batch.go:110-153 | the loop over any schedule of arms, sends and stop ends in the state that playing the schedule gives, about which the rows below speak |
| BatchWriting.BatchWriter.SelectReceive | store/batch.go:130-134 | takes the oldest entry and flushes exactly when the batch is full |
| BatchWriting.BatchWriter.SelectTick | store/batch.go:136-137 | flushes what is batched |
| BatchWriting.BatchWriter.SelectStop | store/batch.go:139-150 | moves the whole channel to the batch in order, flushes once, exits |
| BatchWriting.BatchWriter.Flush | store/batch.go:116-126 | the batch is emptied whether its transaction succeeded or not |
| BatchWriting.BatchWriter.InsertBatch | store/batch.go:158-179 | all rows in order, or, with the database closed, a failed begin, a failing row or a failed commit, no change and an error |
| BatchWriting.BatchWriter.InsertOne | store/batch.go:182-188 | one INSERT OR IGNORE, or no change |
| BatchWriting.ProgramRefinesMachine | store/batch.go:85-153 | whatever the scheduler chooses, some run of single steps ends in the writer's state and has sent, queued, written and lost exactly the entries that the schedule did, in that order |
| BatchWriting.ProgramKeepsInvariant | store/batch.go:85-153 | in every state of the program each entry sent is queued, batched, written or lost, as multisets; batch and channel are the end of what went through the channel; the table is what was written on top of the old rows; batch and channel keep their bounds |
| BatchWriting.ProgramRowMissingIff | store/batch.go:119-124 | in every state of the program an entry has no row exactly while it is queued or batched, or for good once a failed insert lost it |
| BatchWriting.ProgramOvertakingIsHarmless | store/batch.go:85-101 | drained without a loss, the program leaves the table of one in-order append per entry sent |
| BatchWriting.StoppedIff | store/batch.go:105-107 | the writer is stopped exactly when the schedule has a stop signal |
| BatchWriting.StopEndsWorker | store/batch.go:139-150 | from any state with the worker at its select, a stop signal and the stop arm leave it exited with nothing queued or batched |
| BatchWriting.ProgramExitIff | store/batch.go:139-150 | an exited worker had a stop signal and holds nothing batched, and everything that the callers sent was written if and only if nothing failed and nothing is left in the channel |
| BatchWriting.ProgramStopWritesAll | store/batch.go:103-107 | signal, drain and exit: unless an insert failed, every entry ever sent has a row |
| BatchWriting.SentIsArrivals | store/batch.go:85-101 | the entries sent are those of the calls of Send, in order |
| BatchWriting.TurnsDrain | store/batch.go:128-137 | one receive per queued entry and a tick later all that was batched or queued is in the table, in order, and nothing is left |
| Fsm.FSM.Apply | fsm/fsm.go:75-116 | the whole new state and result for undecodable, duplicate, unknown and effective entries, with the write and duplicate counters |
| Fsm.FSM.Snapshot | fsm/fsm.go:123-137 | the fold of the durable rows, not the live map |
| Fsm.FSM.Restore | fsm/fsm.go:143-163 | table replaced and live map overlaid, dedup and queue untouched; on any failure table and live map are unchanged |
| Fsm.FSM.SetAll | fsm/fsm.go:157-160 | the range loop overlays the snapshot in any iteration order |
| Fsm.Startup | main.go:85-102 | a new process has the replayed table as live map, remembers and queues nothing, has counted nothing, and its write queue and dedup store run with the sizes and times they were given |
| Fsm.Shutdown | main.go:171-189 | stops the cleaner, signals the worker and closes the database; whatever is queued stays queued |
| Node.InvStep | fsm/fsm.go:75-163 | every event of a node's life keeps the invariant: rows, pending entries, live map, dedup memory, and whether the stored snapshot is exact, against the log |
| Node.Reachable | fsm/fsm.go:75-163 | so it holds in every reachable state, with any number of crashes, snapshots taken at any time, evictions and failed inserts |
| Node.InvCrash | main.go:87-96 | a crash at any point, also mid-recovery, and the start-up replay keep the invariant |
| Node.MergedFold | fsm/fsm.go:91-107 | table rows and pending entries up to the last entry consumed, folded in index order, give the log's map, also while the table holds rows from beyond |
| Node.SnapshotSafeIff | fsm/fsm.go:123-137 | the table folds to the log's map if and only if rows from beyond the entries consumed, and pending entries that are the newest write of their key, change no value |
| Node.NothingStaleIsSafe | fsm/fsm.go:123-137 | so it does where the table is caught up and every pending key has a row at least as recent |
| Recovery.VerdictExactIff | fsm/fsm.go:84-97 | at every moment of a node's life, after any crashes, evictions and restores, Apply judges the next entry as the log does if and only if the entry's key, where this process applied it, has not been evicted |
| Recovery.WriteBehind | fsm/fsm.go:91-107 | in every reachable state the fold of table plus pending up to the last entry consumed is the log's map; in every caught-up one so are the live map and the fold of all rows |
| Recovery.LiveMapExactIff | main.go:87-96 | exactly when the live map of a catching-up node is the log's |
| Recovery.ReplicasAgree | fsm/fsm.go:75-116 | two nodes that consumed the same prefix have equal live maps, whatever their clocks, crashes, cleaner passes and snapshots |
| Recovery.RecoveryComplete | main.go:87-96 | after any life, once the log is consumed and the queue drained without failure, the live map and the table fold are the log's and the rows above the last snapshot are exactly the log's rows, rows dropped earlier included |
| Recovery.RecoveryPossible | main.go:87-96 | from every reachable state, crash, replay, restore of an exact snapshot and re-delivery through channel, batch and flush lead to such a state |
| Recovery.RestoreIsExact | fsm/fsm.go:143-163 | after a restore in any life the table replays to the snapshot, and the live map is the snapshot, with no stale key, if and only if the snapshot has every key replayed at start-up |
| Recovery.NeverSwallowed | store/sqlite.go:143-155 | over any number of restored exact snapshots, the next effective put, and every entry still queued, batched or dropped, finds its index free or taken by its own row |
| Recovery.SnapshotsAreExact | fsm/fsm.go:123-137 | the stored snapshot is the log's map at its position at every moment of a life if and only if every snapshot was taken when that was safe |
| Recovery.SnapshotKeyIff | fsm/fsm.go:123-137 | key by key, at any moment: Snapshot reads what the log gives the key if and only if no row from beyond and no pending newest write stands in the way; on a caught-up node it reads what the live map gives it if and only if the newest write, where it is pending without a row, carries the table's value |
| Recovery.SnapshotDiffersOnlyWherePending | fsm/fsm.go:123-137 | so a caught-up snapshot agrees with the live map at every key whose latest effective put has its row, whatever older entries of the key were dropped |
| Recovery.SnapshotExactIff | fsm/fsm.go:123-137 | at any moment Snapshot reads the log's map if and only if nothing from beyond and nothing pending stands in the way; on a caught-up node it reads the live map if and only if each pending newest write carries the value the table already has |
| Provisos.EvictionInvisibleIff | dedup/dedup.go:95-135 | over any run, every verdict equals that of the same process without a cleaner if and only if no key recurs after its eviction |
| Failures.EvictedRetryGoesBack | dedup/dedup.go:95-112 | a run in which one does, and the live map goes back to the old value |
| Provisos.StoreIsADedupRun | dedup/dedup.go:95-135 | over any life of a node, the dedup store is that of a timed run since the last start, under a monotone clock, and the keys applied are the run's |
| Provisos.DedupInALife | dedup/dedup.go:116-143 | so in a node's life one process applies a key at most once per ttl, and its store is bounded by the applications since the last pass minus ttl |
| Provisos.RetryWithinTtl | dedup/dedup.go:20-22 | and a key applied at most ttl ago is still remembered |
| Provisos.CleanCutIff | fsm/fsm.go:143-163 | a process restored at s that evicts nothing applies every later entry exactly when the log says so, if and only if each key used on both sides of s is one it remembers; a process just started remembers none |
| Failures.StraddlingRetryGoesBack | fsm/fsm.go:143-163 | a run in which a restarted process does not remember one, and the live map goes back to the old value |
| Restoring.RestoredMapIff | fsm/fsm.go:143-163 | any map restored at s in any state of any life: after further deliveries the live map says of a key what the log says if and only if the key was written since, or the map right after the restore said what the log says at s |
| Restoring.RestoredTableIff | fsm/fsm.go:143-163 | the same for the table, whatever was queued at the restore, once drained: a key has the log's value where a later put found an index free of synthetic rows, otherwise that of the last queued entry above them, otherwise the snapshot's |
| Restoring.AnyRestoreIff | fsm/fsm.go:143-163 | live map and table as a whole are the log's if and only if that is so at every key |
| Restoring.UndrainedRestoreIff | fsm/fsm.go:152-155 | with nothing delivered in between, the next start-up rebuilds the snapshot, exact or not, if and only if the last queued entry of every key carries the snapshot's value |
| Failures.UndrainedRestoreGoesBack | fsm/fsm.go:152-155 | a run in which it does not: after the flush a restart brings back the old value |
| Failures.SnapshotMissesAppliedEntry | fsm/fsm.go:123-163 | a life in which raft keeps a snapshot without an entry applied before it; after a crash and its restore the committed write is gone from live map and table |
| Forwarding.Server.ForwardToLeader | server/forward.go:39-79 | none without a leader, otherwise one to three POSTs; a POST is followed by the next exactly when it or its reply was lost and it was not the third; success exactly when the last one made was answered with a 200 |
| Forwarding.Server.ForwardWithRetry | server/http.go:428-457 | at most nine POSTs; 200 exactly when one of the three rounds got a 200 from a leader, otherwise 502 exactly when the third round had a leader and 503 when it had none |
| Forwarding.RoundsAnswer | server/http.go:428-457 | the same of the status that the theorems on trees speak of |
| Forwarding.PostsOkIff | server/forward.go:39-79 | POSTs to one address succeed if and only if the first of them to be answered at all, within three, is answered with a 200 |
| Forwarding.Server.ApplyAsLeader | server/http.go:390-422 | commit, failure and lost leadership give 200, 500 and forwarding, with the error and forward counters |
| Forwarding.Server.Answer | server/http.go:346-385 | 405, 503 and 400 for what is refused, 200 and 500 for what raft committed or failed, the answer of forwarding otherwise; the forward and error counters; the semaphore slot is given back |
| Forwarding.Server.HandlePut | server/http.go:340-385 | on every path one latency sample is recorded |
| Forwarding.OkMeansCommitted | server/http.go:340-457 | a 200 through any tree of forwards, lost requests and lost replies means the log has a copy of the command, and key and idempotency key are not empty |
| Forwarding.StatusTellsIff | server/http.go:340-457 | over every tree, a 200 goes with exactly one copy in the log and any other answer with none, if and only if raft's failures were real and nothing behind a lost reply reached the log |
| Forwarding.LostReplies | server/forward.go:50-61 | where that fails: with one lost reply, a 200 and two copies; with all replies lost, a 502 and nine copies |
| ExactlyOnce.CopiesChangeNothing | fsm/fsm.go:84-110 | taking out all later copies of a key changes neither the log's map nor its rows |
| ExactlyOnce.FirstCopyLeavesOne | fsm/fsm.go:84-89 | the log compared with has at most one put with the key |
| ExactlyOnce.FirstCopyKeepsOthers | fsm/fsm.go:84-89 | and loses nothing else |
| ExactlyOnce.OkMeansExactlyOnce | server/http.go:390-457 | a client's 200 means exactly one effective put with its key and value, and a log that means what it would with the first copy alone |
| ExactlyOnce.OkIsOneRow | fsm/fsm.go:75-116 | and exactly one row with its idempotency key, holding its write, in the table of any drained node that consumed the log from its start, whatever its life was |
| ExactlyOnce.NodesIgnoreCopies | fsm/fsm.go:84-110 | a node fed all the copies ends with the live map and rows of a node fed each command once |
| Metrics.LatencyTracker.constructor | metrics/metrics.go:112-117 | a tracker of n slots with no samples |
| Metrics.LatencyTracker.Record | metrics/metrics.go:120-128 | the buffer keeps holding the end of the sample history, across wrap-arounds |
| Metrics.WindowIsLast | metrics/metrics.go:134-145 | the slice read is as a multiset exactly the last min(k, n) samples |
| Metrics.LatencyTracker.Percentiles | metrics/metrics.go:132-160 | each figure is a nearest-rank percentile of the last samples, rounded to the nearest 0.01 ms with halves away from zero, and p50 <= p95 <= p99 |
| Metrics.RankOf | metrics/metrics.go:151-157 | the rank is in range, at least pct% of the samples are at most it and fewer than pct% are below it |
| Metrics.RankReported | metrics/metrics.go:147-160 | the same for any arrangement of the samples |
| Metrics.ThroughputTracker.WritesPerSecond | metrics/metrics.go:72-92 | the closed windows partition the time since the first call, each lasts at least a second, and their rates times lengths add up to the writes counted in it; a call closes the window exactly when a second has passed, and the next one starts there |

## Left out

- The raft protocol itself (elections, replication, BoltDB, transports), which is not part of this model; its contract is stated above.
- SQLite internals, SQL text, PRAGMAs and the driver: the table is a map with atomic transactions. An index of 2^63 or more, which the driver refuses, is not modelled.
- JSON: encoding and decoding are the identity on valid strings; decoding may fail.
- GET handlers, swagger, logging, flags and environment variables, and the commented-out copy of the server.
- Non-termination of forwarding between two nodes with stale views of the leader: only executions that end are trees.
- Liveness and throughput figures, the semaphore's 5 s timer and goroutine fairness: the choice is a parameter.
- Floating-point rounding: percentages, milliseconds and rates are exact.
- Fsm.FSM.Apply: one step, although the worker may run between its parts; the parts it shares with the worker are touched by Send alone. The error counter of a fallback and the queue-depth gauges are not modelled.
- BatchWriting.BatchWriter.Send: the end of the wait and the insert are one step, and the timer wins only against a full channel; a timer that wins although a slot is free, as after a long pause of the goroutine, is a step of the state machine only (`WriteQueue.SendSlow`). The error counter and the queue-depth gauge are not modelled.
- BatchWriting.BatchWriter.Flush: the error counter and the queue-depth gauge are not modelled.
- Metrics.Sort: an insertion sort stands in for the library's sort.Slice.
