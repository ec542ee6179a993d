# Verification of the write-ahead log, its replay pipeline and the refreshed snapshots

This project models the path of a record through the server: the writer assigns log sequence numbers (LSNs), buffers
records, encodes them as frames, rotates segment files, rolls failed flushes back and recovers after a crash; the replay
worker reads from a checkpoint, plans or quarantines each record, batches events per sink, puts small tails off, moves
the checkpoint forward and deletes covered segments. A second, smaller part is the Parquet sink's commit protocol and
the version-checked snapshots of projects and event sinks.

`dafny verify dfyconfig.toml` checks everything.

## How the model is built

Four layers, each built on the one before it.

1. Bytes. `Bytes`, `FrameCodec`, `SegmentCodec` and `SegmentFile` are the file formats with their parsers and the frame
   loop. The record serializer, CRC32 and UTF-8 validation are the functions of a `Codec` about which only
   `Lawful` is known: decoding inverts encoding, and a checksum fits four bytes.
2. The log on segments. `SegmentLog` and `WalSpec` say what appending, reading, bounds, recovery and cleanup do to a
   sequence of segments. `LogReader` (the directory-level reading loops) and `WalWriter` (classes `Directory` and
   `Writer`, with the fields the source updates in place) are proved to do exactly that to the bytes of the files.
   `WalFiles` holds the lemmas in between.
3. One replay pass. `Replay` is the pass as a function from entries, settings and the answers of the outside world to a
   trace of effects. `ReplayWorker.Worker` is the same pass statement by statement, with the source's loops and
   variables, proved equal to it. `ReplayExact` and `ReplayTheorems` prove what a pass adds up to, `Redelivery` how much
   a crash in the middle of one makes the next repeat, `BatchLimits` which windows and batches the settings give,
   `ReplayIssues` what becomes of records that cannot be planned, `TailDeferral` what passes do that follow each other
   and put their tails off.
4. The pipeline. `Pipeline` is a state machine over append, flush, failed flush, crash (also in the middle of a flush),
   interrupted and complete start-up, checkpoint initialisation, and the effects of replay passes one at a time, in any
   order with the writer's steps. `PipelineWriter`, `PipelineReplay` and `LogInvariant` prove that each step keeps the
   invariant; `PipelineTheorems`, `LogTheorems` and `CleanupOrder` draw the conclusions; `PipelineSends` and
   `PipelineParquet` say what the sends of a whole run are and what the Parquet sink keeps of them; `PipelineLimits`
   shows where the guarantees end.

Beside these stand `ParquetNames` and `ParquetCommit`, and `VersionedTables` with `ProjectRegistry`, `EventSinkRouting`
and `EventSinkState`.

Sinks, storage calls, file operations and clocks answer nondeterministically. A call can succeed, be refused, or do its
work and still report an error. Other database connections are an arbitrary schedule
of transaction steps between any two reads: a transaction reads the version, and later commits its changes with the
version it read plus one.

## Hypotheses

The code does not establish these; the theorems need them.

- A failing rollback is outside the state machine. `truncate_after(...)?` at src/wal/mod.rs:339 returns before
  `next_lsn` and the buffer are restored. `WalWriter.Writer.Flush` states what such a double fault leaves: the batch is
  gone and its LSNs stay used up.
- A crash keeps a prefix of the frames a flush has written, followed by a proper prefix of the next frame and possibly
  by empty segments, and does not fall inside a rollback.
- A flush is one step for the replay reader. The reader takes no lock of the writer, and could otherwise see frames that
  a rollback then removes.
- A pass reads the checkpoint, the bounds of the log and its entries in one step of the state machine; what it does with
  them afterwards is interleaved with the writer effect by effect.
- The checkpoint file is written in one step (temporary file and rename), which may succeed, not happen, or happen and
  report an error.
- The configuration of a pass and the router it uses do not change during the pass.
- LSNs, segment ids and offsets stay below 2^64; methods that need it say so in `requires`.
- No two committed transactions that raise a version have read the same version. SQLite serialises writers; the code
  itself takes no row lock and sets no isolation level (src/repositories/projects.rs:424-443,
  src/repositories/event_sinks.rs:439-458), and MySQL with ten connections is supported (ingest4x.example.toml:35,
  src/db/mod.rs:42-48). `VersionedTables.NothingHiddenExactlyWhen` shows that this is exactly what the readers of a
  version rely on.
- A direct write to an object store, and a rename, take place whole or not at all, and one replay worker writes to a
  sink's directory.

## What was found

Five expectations do not hold of the code as it is. For each there is a concrete case and the exact condition.

- A checkpoint can jump over acknowledged records. With reset policy Latest, a checkpoint that was initialised on a
  header-only segment, followed by a restart (which opens the next segment) and one acknowledged append, is moved to the
  tail by the next pass, because segment ids are compared and not LSNs: `PipelineLimits.AcknowledgedRecordIsJumped`.
  The documentation (docs/wal.md:172) takes a checkpoint behind the floor for a sign that segments were cleaned up; the
  model follows the code.
  `PipelineTheorems.JumpsExactlyWhen` gives the condition and `PipelineTheorems.RunsKeepAnchor` shows that it never
  holds again once a checkpoint has marked a record.
- A tail can be put off for ever although nothing fails. A flush that is forced in the pass, by a record to quarantine
  or a full window, clears the timers of the sinks it sends to (src/wal/replay.rs:605-609); the tail then starts them
  anew, and the pass ends without persisting what is pending (298-300). With one sink, a batch timeout of five seconds
  and the other limits of the example configuration, the backlog good, bad, good makes every pass send the first event
  and quarantine the second record once more, and never send the third event: `TailDeferral.ForcedFlushStarvesTheTail`.
  A backlog to which nothing is added is put off for ever if and only if its tail has events, each sink of the tail is
  below its limits and is sent to by a forced flush of the pass, and no forced flush finds the checkpoint policy
  reached: `TailDeferral.PutOffForeverExactlyWhen`. A sink that has events in the tails only ends the waiting within
  its timeout, also while entries keep arriving: `TailDeferral.PassesStopPuttingOff`.
- The LSNs in the directory are consecutive only as long as no cleanup is cut short, because segments are removed in
  directory order: `LogTheorems.InterruptedCleanupLeavesHole`. Whatever removal fails, no hole is left, if and only if
  the directory lists the covered segments that hold records in ascending order:
  `CleanupOrder.CleanupIsSafeExactlyWhen`. Behind the checkpoint the log has no gap in any case.
- The Parquet sink takes a batch for already committed when a file of its LSN range is there, which the documentation
  (docs/sink-parameters.md:206) calls a previously committed retry. An acknowledged batch is in the directory row for
  row if and only if the first attempt that stored a file for its LSN range had the same rows, in every run and under
  configurations that change in any way: `ParquetCommit.AcknowledgedStoredExactlyWhen`,
  `PipelineParquet.AcceptedIsStoredExactlyWhen`. Within one send a batch is dropped if and only if its file was there
  before, or it and the batch before it hold events of one record only (`ParquetCommit.DroppedExactlyWhen`, with the
  case `ParquetCommit.SplitRecordLosesAnEvent`). Across retries more is lost. With other batch settings, the first of
  two events of a record is committed alone, and the retry with both in one batch reports success
  (`ParquetCommit.RetryLosesAnEvent`). With another processor, which is refreshed while the server runs
  (src/server.rs:87, docs/wal.md:120), a retry that has one more event in the middle of the same LSN range reports
  success, and that event is nowhere, although no record ever emits two
  (`PipelineParquet.ProcessorChangeLosesAnEvent`). All sends and retries of what a set of plans emits are safe if and
  only if the plans agree: between any two LSNs that two of them, or one of them twice, emit for, they emit the same
  events (`ParquetCommit.RetriesAreSafeExactlyWhen`). For a plan that does not change this says that no record emits two
  events for the sink (`ParquetCommit.OnePlanIsSafeExactlyWhen`).
- A version of the projects or event sinks stands for one state of the tables only if no two committed transactions
  read the same version. Two that do commit the same version, and a refresh between the commits never sees the second
  one: `ProjectRegistry.LostUpdateIsHidden`. Three of them make even a torn read pass the check of the version
  (`EventSinkState.TornReadPassesTheCheck`). Nothing is hidden in a run if and only if no read is shared:
  `VersionedTables.NothingHiddenExactlyWhen`.

Replay by itself is at-least-once and not exactly-once: a failed or deferred pass forgets checkpoints it had not
persisted, and repeats what they would have covered.

## Model

| member | source | states |
|---|---|---|
| Bytes.FieldRoundTrips | src/wal/mod.rs:1166-1189 | Every u16, u32 and u64 field survives its big-endian encoding, over its whole range. |
| Bytes.MostSignificantFirst | src/wal/mod.rs:1166-1189 | The first byte of a number is the most significant one. |
| FrameCodec.HeadRoundTrips | src/wal/mod.rs:744-782 | The fixed-width frame head decodes to the fields it was encoded from. |
| FrameCodec.FrameRoundTrips | src/wal/mod.rs:941-1089 | Parsing an encoded frame, whatever bytes follow it, gives the record and the frame's exact length. |
| FrameCodec.TornFrameIsIncomplete | src/wal/mod.rs:941-1089 | Every proper prefix of a frame parses to the end-of-log answer, never to an error or to another record. |
| FrameCodec.ParseIsLocal | src/wal/mod.rs:941-1089 | What parses as a frame does not depend on the bytes behind it. |
| FrameCodec.FramesArePrefixFree | src/wal/mod.rs:744-782 | A frame is never the beginning of another record's frame, so that a stream of frames splits in one way only. |
| FrameCodec.IncompleteIsCutOff | src/wal/mod.rs:941-1089 | The end-of-log answer is only given where the header, or the node id and payload it announces, are cut off: a damaged frame is an error. |
| FrameCodec.ParsedIsChecked | src/wal/mod.rs:941-1089 | Whatever parses as a frame has passed every check: magic, version, type, flags and lengths at their places, the payload has the checksum that is stored and decodes to the record, and LSN, time and node id agree with the header. |
| SegmentCodec.HeaderRoundTrips | src/wal/mod.rs:1098-1189 | The 512-byte segment header round-trips for every node id of at most 470 bytes, whatever frames follow. |
| SegmentCodec.ReadHeaderIsChecked | src/wal/mod.rs:1098-1164 | A header that is read has magic, version, length and its own checksum right, and its fields are those at their places. |
| SegmentFile.ReadSegmentEntriesAfter | src/wal/mod.rs:681-742 | The source's loop over a segment file computes the recursive reading, including the limit, the offset check and the `start_lsn` check. |
| SegmentFile.ReadingIsChecked | src/wal/mod.rs:681-742 | Whatever bytes a file holds, a reading that succeeds has a header in order and an offset inside the file; its entries are the frames one after the other, up to the limit or to where no whole frame follows, and from the header on the first has the header's `start_lsn`. Nothing damaged is skipped. |
| SegmentFile.ReadFramesOfImage | src/wal/mod.rs:708-732 | From the start of frame i, reading the bytes of a segment returns exactly its whole frames from i on, up to the limit, with their offsets; a torn frame behind them is ignored. |
| SegmentFile.ReadSegmentOfImage | src/wal/mod.rs:681-742 | The same behind the header checks; the `start_lsn` comparison never fails on a segment the writer made. |
| SegmentFile.ScanIsExact | src/wal/mod.rs:897-939 | Scanning header, frames and any proper prefix of another frame gives exactly the whole records and the offset behind the last. |
| SegmentFile.RepairIsExact | src/wal/mod.rs:884-890 | Truncating at the scanned offset removes the torn bytes and nothing else; the repaired file scans to the same result, so repair is idempotent. |
| SegmentFile.AppendFrameToImage | src/wal/mod.rs:371-383 | Writing a frame behind a repaired file gives the file of the longer record list; the new offset is the old one plus the frame's length. |
| LogReader.SegmentIds | src/wal/mod.rs:1388-1409 | The listing is sorted and holds exactly the ids of the files. |
| LogReader.ReadLogOfImage | src/wal/mod.rs:540-573 | On the files of a log, for a start that is absent or a frame boundary, reading with limit n succeeds and returns the first n entries behind the start, across segments. |
| LogReader.ReadEntriesAfterLimit | src/wal/mod.rs:540-573 | The source's loop over the files, with the remaining limit it passes on, meets that specification. |
| LogReader.ReadWalBounds | src/wal/mod.rs:575-608 | The loop computes floor (first entry) and tail (end of the last file, carrying the highest LSN of the log) of the log the files hold. |
| LogReader.RecoverNextLsn | src/wal/mod.rs:1210-1221 | The loop finds one more than the highest LSN of records and checkpoint. |
| LogReader.RecoverActiveSegmentId | src/wal/mod.rs:1200-1208 | The active segment is not before any file nor before the segment after the checkpoint's; it is a file that exists, or that segment, or the first one in an empty directory. |
| LogTheorems.ReadOnFromEntry | src/wal/mod.rs:540-573 | Reading on from an entry's `next_position` gives exactly the entries behind that entry. |
| LogTheorems.PagesEnumerateLog | src/wal/mod.rs:540-573 | From the beginning or from any frame boundary, reading pages of n and going on from the last `next_position` ends, and the pages together are the log behind the start, once and in order; no page is empty or longer than n. |
| LogTheorems.BeginningIsFirstHeader | src/wal/mod.rs:540-573 | Reading without a start is reading from the end of the first segment's header. |
| WalWriter.Directory.CreateSegmentFile | src/wal/mod.rs:857-882 | Step by step over the temporary file: whichever step fails or is the last before a crash, the file is there whole or not at all, other files and temporary files are untouched, and a temporary file left behind holds a prefix of the header. A node id that is too long is reported and creates nothing. |
| WalWriter.Directory.EnsureSegmentFile | src/wal/mod.rs:816-855 | Creates a missing file, recreates a header-only file whose `start_lsn` is stale, keeps any other that matches, and refuses a wrong id, a wrong node id or one that is too long without touching anything; says what a fault at each step leaves behind. |
| WalWriter.Directory.TruncateAfter | src/wal/mod.rs:417-437 | On success the old segment is cut to the old offset and exactly the later segments up to the current one are removed; at each fault, exactly the steps before it have happened. |
| WalWriter.Directory.RemoveCoveredSegments | src/wal/mod.rs:648-675 | On success exactly the segments before `keep_from` that hold no record above the LSN are gone. For any directory order and any failing removals, exactly those listed before the first one that cannot be removed go, and the directory still holds its log. |
| WalWriter.Writer.AppendFrame | src/wal/mod.rs:355-384 | A frame stays in the segment at the present offset if it fits or is the first one there, and otherwise opens the next segment; success leaves it where the position says and the file marked for syncing; at any fault only the last file has grown or one new file appeared. |
| WalWriter.Writer.WriteBatch | src/wal/mod.rs:324-336 | Success means that every frame was written in order, each at the position reported for it, and that the sync of every file that holds one succeeded; without faults it succeeds; after a failure the directory has only grown. |
| WalWriter.Writer.Rollback | src/wal/mod.rs:338-349 | Restores every file, the segment id and the offset; with waiters `next_lsn` returns to the first buffered LSN and each waiter gets the error, without waiters the batch is buffered again. If the rollback itself fails, every old file and every old byte is still there. |
| WalWriter.Writer.Flush | src/wal/mod.rs:310-353 | Success empties the buffer into the log and tells each waiter, one message to each and in buffer order, a position where its own record stands; failure of any frame or sync, after any number of rotations, is a no-op on directory and write position and tells each waiter the error; after the double fault the batch is gone, its LSNs stay used up, and the files still begin with the old bytes. |
| WalWriter.Writer.AppendBuffered | src/wal/mod.rs:275-299 | Assigns the next LSN, buffers, flushes at the threshold; states all four outcomes: buffered, flushed, failed with waiters, failed without. |
| WalWriter.Writer.Open | src/wal/mod.rs:164-207 | Start-up on any directory the writer left behind, torn tail included, succeeds and leaves the repaired log with `next_lsn` behind records and checkpoint; a node id that is too long always fails and leaves the segment files alone. |
| WalFiles.RollbackRestores | src/wal/mod.rs:417-437 | Whatever a flush added to the last file and to later files, cutting and removing gives the old directory back, byte for byte. |
| WalFiles.AppendInPlace | src/wal/mod.rs:371-383 | Bytes of a frame appended to the last file make the directory hold the log with the record appended. |
| WalFiles.AppendToNewFile | src/wal/mod.rs:361-383 | A new file of header and frame makes the directory hold the log with one more segment. |
| WalFiles.RestartHolds | src/wal/mod.rs:164-207 | Ensuring the active file and truncating it at its scan is the restart step on the log. |
| WalFiles.CoveredFile | src/wal/mod.rs:648-675 | The scan of a file decides coverage exactly as the segment's highest LSN does. |
| LogInvariant.AppendKeepsLog | src/wal/mod.rs:355-384 | One appended record, with or without rotation, keeps LSNs, `start_lsn`s, segment order and the checkpoint's place in the log. |
| LogInvariant.RestartKeepsLog | src/wal/mod.rs:1200-1221 | Recovery keeps them, loses no record, and recovers the number of durable records plus one as the next LSN. |
| LogInvariant.RecoveredLsn | src/wal/mod.rs:1210-1221 | The recovered next LSN is the number of records that ever became durable plus one, also when their segments are gone. |
| LogInvariant.WithoutKeepsLog | src/wal/mod.rs:648-675 | Removing segments before the checkpoint's keeps the invariant of the log. |
| LogInvariant.ReadFromPosition | src/wal/mod.rs:540-573 | Reading from any frame boundary gives the records right behind it, with consecutive LSNs, each leaving a boundary to resume from. |
| LogInvariant.TailIsTheEnd | src/wal/mod.rs:575-608 | The tail of the bounds is the end of the log and carries the newest LSN. |
| ReplayPlan.GroupDeliveriesBySink | src/wal/replay.rs:516-535 | Succeeds exactly if every target is a registered sink and not all Unicode white space; then each list holds its sink's events in the order of the deliveries. Otherwise the issue is that of the first bad target, and quarantines the record. |
| ReplayTheorems.TargetsKnown | src/wal/replay.rs:516-535 | Grouping succeeds only if every delivery names a registered sink. |
| ReplayTheorems.GroupingConserves | src/wal/replay.rs:516-535 | The per-sink lists together have as many events as were emitted. |
| SinkBatching.BatchesPartition | src/wal/replay.rs:684-734 | The batches are not empty, concatenate to the input, and respect `max_events` and, unless a singleton, `max_bytes`. |
| SinkBatching.BatchesAreMaximal | src/wal/replay.rs:697-711 | With the first event of the next batch, a batch would be over one of the limits. |
| SinkBatching.BytesOfIsTotal | src/wal/replay.rs:678-683 | The saturating count of a batch's bytes is the sum of its events' payloads, up to the largest u64. |
| BatchLimits.BatchesKeepTheSettings | src/wal/replay.rs:430-450 | Every batch that a pass sends is a part of a sink's share of one of its windows, has no more events than the sink's `max_events` and no more bytes than its `max_bytes` unless it is a single event, and with the next event of the share it would; settings of zero count as one. |
| BatchLimits.WindowsPartition | src/wal/replay.rs:464-480 | The windows of a pass hold the entries that can be planned, once and in order, and none has `max_records` records or `max_bytes` bytes before its last entry. |
| SinkBatching.SendAllStopsAtFailure | src/wal/replay.rs:684-748 | Failure at batch k means the batches before it were accepted, nothing was sent after it, and the LSN reported is batch k's first. |
| SinkBatching.SendAllAccepts | src/wal/replay.rs:684-748 | A completed send delivers everything to its sink, a failed one a run of whole batches, and other sinks get nothing. |
| ReplayExact.WindowIsEmission | src/wal/replay.rs:548-568 | A sink's share of a window is the record-by-record emission of the window's entries: nothing lost, doubled or reordered. |
| ReplayExact.PassFromIsSound | src/wal/replay.rs:204-306 | The loop invariant of a pass over any entries: what is marked was handled, what waits is deliverable, and every effect so far is sound. |
| ReplayExact.FlushWindowKeepsBooks | src/wal/replay.rs:537-630 | A flushed window is handled under any batch and checkpoint policy; a deferred one has no effect at all, and only a window that may be deferred is. |
| ReplayExact.FlushSettlesExactlyWhenDue | src/wal/replay.rs:456-462 | A flushed window persists everything, and starts the interval anew, exactly if its records and bytes with what was pending reach `flush_records` or `flush_bytes`, or the interval has passed since the last write; otherwise it does nothing but send. |
| ReplayExact.CoveredIsSkipped | src/wal/replay.rs:548-568 | An entry at or before the checkpoint is neither sent nor marked; any other one is marked and sends its deliveries' events with its node id and LSN. |
| ReplayTheorems.PassIsSound | src/wal/replay.rs:185-307 | Every effect of a pass is sound under any outcomes of sinks and files: a checkpoint is written only for entries whose events were all accepted or which were quarantined, exactly once each in this pass; cleanups use a written checkpoint; sends are runs of the emission; only unplannable records are quarantined. |
| ReplayTheorems.NoGapReported | src/wal/replay.rs:204-216 | Over entries with consecutive LSNs a pass never ends with the LSN-gap error. |
| ReplayTheorems.PassHandlesAll | src/wal/replay.rs:185-307 | If nothing fails, a pass either defers its tail or handles every entry and leaves the checkpoint behind the last one. |
| ReplayIssues.BadRecordsAreQuarantined | src/wal/error.rs:169-183 | With nothing failing outside, records whose body is no event, whose processor fails, whose project is unknown or whose delivery names no sink hold nothing up: the pass handles every entry or puts its tail off, and each such record is quarantined. |
| ReplayIssues.OtherIssuesStop | src/wal/error.rs:169-183 | A read or runtime failure, or a control plane that cannot answer, stops the pass at that record under any outcomes: nothing from it on is sent, quarantined or marked, and with nothing failing before, this is the issue reported. |
| ReplayIssues.StoppedPassHandlesTheRest | src/wal/replay.rs:204-249 | A pass that is ended by such an issue or by an LSN gap has, with nothing failing, handled everything before it. |
| ReplayTheorems.WindowingRefinesOneByOne | src/wal/replay.rs:204-306 | If nothing fails and nothing is deferred, any window, batch and checkpoint policy gives each sink the same event sequence, the same quarantine and the same final checkpoint as one pass per record. |
| ReplayTheorems.FlushSinksFailsInOrder | src/wal/replay.rs:582-604 | When a window fails, the sinks before the failing one in name order have all of it, that sink a run of its first batches, later sinks nothing. |
| ReplayTheorems.DeferIsExact | src/wal/replay.rs:636-676 | A tail is deferred if and only if it has sink events and every sink with events is below both limits with an unexpired non-zero timeout; running timers are kept and new ones start now. |
| ReplayTheorems.PatientExactly | src/wal/replay.rs:636-676 | In the sink's own settings: it waits if it has no events, or fewer events and bytes than a batch may have and a timer, starting now unless it runs, that has not reached its timeout. |
| ReplayTheorems.FullExactly | src/wal/replay.rs:654-664 | A share goes out at once exactly if the sink has no timeout or the share reaches the events or bytes of a batch. |
| TailDeferral.PassPutsOffExactlyWhen | src/wal/replay.rs:185-307 | A pass in which nothing fails puts its tail off if and only if the tail has events and each of its sinks is below its limits with a timeout that has not passed, where the timers of the sinks that a forced flush sends to start anew; it then persists nothing exactly if no forced flush finds the checkpoint policy reached. |
| TailDeferral.PutOffForeverExactlyWhen | src/wal/replay.rs:288-300 | Passes over a fixed backlog, with the timers carried from one to the next, are all put off with nothing persisted, for any timers at first and at any times, if and only if the forced flushes of a pass send to every sink of its tail, these sinks are below their limits, and the checkpoint policy is not reached before the tail. |
| TailDeferral.PassesStopPuttingOff | src/wal/replay.rs:636-676 | While a sink has events in the tail of each pass and is not sent to before it, passes that put their tails off end at the latest with the first one that looks at the clock the sink's timeout after the first of them, also when entries keep arriving; that pass handles all it reads and moves the checkpoint behind it. |
| TailDeferral.PassAdvances | src/wal/replay.rs:288-306 | A pass in which nothing fails handles all it reads, or moves the persisted checkpoint forward, or puts its tail off with nothing persisted; there is no fourth outcome. |
| TailDeferral.StarvedPassRepeats | src/wal/replay.rs:605-609 | Over a backlog that meets the condition every pass delivers and quarantines everything before the tail once more and nothing of the tail, and the next one starts where it did. |
| TailDeferral.ForcedFlushStarvesTheTail | src/wal/replay.rs:605-609 | Three records, the middle one to quarantine, one sink: at every time and with any timers the pass is put off, sends only the first event, quarantines the second record and persists nothing. |
| ReplayWorker.ReadReplayCheckpoint | src/wal/replay.rs:811-862 | On the files of a log, the reset decision and the persisted position are those of the state machine. |
| ReplayWorker.CollectSinkEvents | src/wal/replay.rs:548-568 | The loop collects each sink's share of the window, leaves covered entries out and makes no empty list. |
| ReplayExact.MarkWindowKeepsCounts | src/wal/replay.rs:760-767 | Marking the entries of a flushed window keeps the books exact: the pending counts are the number and the frame bytes of the handled entries that the checkpoint does not cover. |
| ReplayExact.FlushPendingKeepsMemory | src/wal/replay.rs:769-780 | If memory and disk agree before, then after a successful write the checkpoint in memory is the one on disk and nothing is pending; after a failed one memory is as it was, and the disk holds the old checkpoint, or the pending one if the write failed late. |
| ReplayExact.FlushBoundsRedelivery | src/wal/replay.rs:605-629 | After each window that is flushed, fewer handled records than `flush_records` and fewer bytes than `flush_bytes` lie behind the checkpoint on disk. |
| Redelivery.RedeliveryIsBounded | src/wal/replay.rs:204-306 | At every moment of a pass, under any outcomes, what is being sent or quarantined lies behind the checkpoint on disk by at most a window, one less than `flush_records`, and the run of records to quarantine right before it. |
| Redelivery.QuarantinedRunIsTheExcess | src/wal/replay.rs:217-233 | The excess is real: quarantined records are marked without a look at the checkpoint policy, so that with `flush_records` 1 a run of them of any length lies behind the checkpoint on disk, and the bound is reached at each of them. |
| ReplayExact.CleanupFollowsTheWrite | src/wal/replay.rs:782-790 | Segments are deleted only behind a write that succeeded, with nothing pending, and up to the checkpoint that is on disk at that moment. |
| ReplayWorker.Worker.SendSinkEventsInBatches | src/wal/replay.rs:684-734 | The loop with its five batch variables sends exactly the specified batches with their node id and LSN range and stops at the first failure. |
| ReplayWorker.Worker.SinksDeferredByBatchTimeout | src/wal/replay.rs:636-676 | The loop with its early returns and timer insertions computes the specified deferral and timers. |
| ReplayWorker.Worker.SendToSinks | src/wal/replay.rs:582-604 | Sends to the sinks in name order and stops at the first failing one with its issue. |
| ReplayWorker.Worker.FinishWindow | src/wal/replay.rs:605-629 | Clears the timers of the sinks that were sent to, marks every uncovered entry, and settles if the checkpoint policy says so. |
| ReplayWorker.Worker.ReplayBatchToSinks | src/wal/replay.rs:537-630 | The whole window flush equals its specification, in state, effects and result. |
| ReplayWorker.Worker.ReplayOnce | src/wal/replay.rs:185-307 | The whole pass equals its specification, so that every theorem on passes holds of it. |
| ReplayWorker.Worker.ReachesWindowPolicy | src/wal/replay.rs:464-480 | The loop decides the window limit by record count and saturating byte count. |
| PipelineTheorems.NextKeepsInv | src/wal/mod.rs:310-384 | Every step of writer, crash, start-up, replay, checkpoint and cleanup keeps the invariant of the pipeline. |
| PipelineTheorems.RunsDeliverAtLeastOnce | src/wal/replay.rs:185-307 | After any run, each durable record at or below the persisted checkpoint was quarantined, or had every event it emits accepted as often as it is emitted, in the pass that marked it and under that pass's configuration, or was jumped over by a recorded reset. |
| PipelineTheorems.RunsKeepLogContiguous | src/wal/mod.rs:275-384 | In every reachable state no two durable records share an LSN, each segment's `start_lsn` is its first record's LSN, an empty active segment starts at the next LSN, and the log above the checkpoint is complete. |
| PipelineTheorems.RunsKeepAcks | src/wal/mod.rs:324-351 | In every reachable state an acknowledged record stands at the reported position, unless its segment was removed while the checkpoint covered it. |
| PipelineTheorems.FlushAcknowledges | src/wal/mod.rs:324-351 | A flush in reliable mode acknowledges every buffered record at a position where it stands, with its own LSN. |
| PipelineTheorems.NextOnlyAdds | src/wal/mod.rs:440-446 | No step takes back a durable record or changes an acknowledgement. |
| PipelineTheorems.CheckpointNeverMovesBack | src/wal/replay.rs:811-854 | No step lowers the persisted checkpoint LSN, resets included. |
| PipelineTheorems.AnchoredIsStable | src/wal/replay.rs:856-862 | If the checkpoint's segment holds a record at or below the checkpoint, reading the checkpoint returns it unchanged. |
| PipelineTheorems.MarkIsAnchored | src/wal/replay.rs:760-780 | Every checkpoint that marks a record is such a checkpoint. |
| PipelineTheorems.RunsKeepAnchor | src/wal/replay.rs:811-862 | From then on, over any run of appends, crashes, restarts, passes and cleanups, it stays one, never moves back, and nothing is jumped over. |
| PipelineTheorems.JumpsExactlyWhen | src/wal/replay.rs:811-862 | Reading the checkpoint skips durable records if and only if the policy is Latest, some segment in the directory holds a record, and there is no checkpoint or every such segment comes after the checkpoint's. |
| PipelineLimits.AcknowledgedRecordIsJumped | src/wal/replay.rs:856-862 | A run with reset policy Latest in which a checkpoint initialised on a header-only segment, a restart and one append end in an acknowledged record that is jumped over and reaches no sink. |
| PipelineWriter.FlushKeepsInv | src/wal/mod.rs:310-353 | A successful flush keeps the invariant, also beside a pass under way. |
| PipelineWriter.CrashInFlushKeepsInv | src/wal/mod.rs:310-384 | A crash that keeps any whole frames, any proper prefix of the next and any empty later segments keeps it. |
| PipelineWriter.StartKeepsInv | src/wal/mod.rs:164-207 | Start-up after any crash keeps it. |
| PipelineWriter.StartInterruptedKeepsInv | src/wal/mod.rs:846-851 | A start-up that dies between deleting and recreating a stale empty segment keeps it. |
| PipelineReplay.ReadKeepsInv | src/wal/replay.rs:811-854 | Reading the checkpoint, with or without a reset, keeps it, and records what it jumps over. |
| PipelineReplay.WriteKeepsInv | src/wal/replay.rs:769-780 | Persisting a checkpoint keeps it: what it newly covers has been handled. |
| PipelineReplay.CleanupKeepsInv | src/wal/replay.rs:782-790 | A cleanup, finished or cut short anywhere, keeps it. |
| LogTheorems.CleanupIsInvisible | src/wal/mod.rs:648-675 | Removing any of the covered segments changes neither the entries behind the checkpoint nor the recovered next LSN and active segment, and removes no record above the checkpoint. |
| LogTheorems.RunsKeepDirectoryContiguous | src/wal/mod.rs:648-675 | If no cleanup was cut short, the LSNs of the whole directory are consecutive and end with the newest. |
| LogTheorems.InterruptedCleanupLeavesHole | src/wal/mod.rs:648-675 | A concrete directory shows that the premise is needed: a cleanup cut short may remove a middle segment first. |
| CleanupOrder.NoHoleExactlyWhenListedInOrder | src/wal/mod.rs:648-675 | A removal may stop after any number of files without leaving a hole if and only if the directory lists the covered segments that hold records in ascending order. |
| CleanupOrder.CleanupIsSafeExactlyWhen | src/wal/mod.rs:648-675 | The same for the loop: whichever removals fail, the directory has no hole, if and only if that order holds; what the loop removes is what `RemoveCoveredSegments` states. |
| CleanupOrder.CoveredIsOldestFirst | src/wal/mod.rs:648-675 | What a checkpoint covers of a directory without holes are, of the segments with records, the oldest ones. |
| PipelineSends.RunsSendInOrder | src/wal/replay.rs:684-734 | In every run each batch ever sent is a run of what the durable records emit under the configuration of the very pass that sent it, which is one the run began a pass with: in log order, of the writer's node, with metadata that names this node and the batch's first and last LSN. |
| LogTheorems.RunsRespectSegmentLimit | src/wal/mod.rs:355-384 | In every reachable state a segment longer than `segment_max_bytes` holds exactly one frame. |
| LogTheorems.PassReadsBytes | src/wal/replay.rs:197-199 | In every state the invariant allows, reading the bytes of the directory from the pass's start succeeds and gives the next records up to the batch size. |
| LogTheorems.EntryBytesIsFrameLen | src/wal/replay.rs:760-767 | The size that replay counts for an entry is the length of its frame. |
| LogTheorems.RunsNeverReportGap | src/wal/replay.rs:204-216 | In every reachable state a pass that starts never raises its LSN-gap error. |
| ParquetNames.NamesAreInjective | src/sinks/parquet.rs:434-442 | Two batches have the same file name if and only if they have the same node id, first LSN and last LSN, whatever dashes and digits the node id holds and however long the numbers are. |
| ParquetNames.FileNameReads | src/sinks/parquet.rs:434-442 | The name consists of the node id and of two numbers of at least sixteen digits, which are the first and the last LSN. |
| ParquetNames.TempIsNoFile | src/sinks/parquet.rs:152-160 | A temporary file name is never a committed file's name. |
| ParquetCommit.ParquetSink.WriteFinalIfAbsent | src/sinks/parquet.rs:408-432 | Under either capability, success leaves the file there and an existing file untouched; failure leaves it there or nothing. |
| ParquetCommit.ParquetSink.WriteEvents | src/sinks/parquet.rs:125-163 | Under every combination of capabilities and faults of the storage calls, a committed file never changes, success means a file of the batch's name is committed, and failure commits the batch's file or nothing. |
| ParquetCommit.CallsAreAttempts | src/sinks/parquet.rs:125-163 | Any sequence of such calls, whatever faults they met, leaves for readers exactly what a sequence of attempts with the same batches and results leaves. |
| ParquetCommit.CallsStoreExactlyWhen | src/sinks/parquet.rs:125-163 | So a call that reported success has its rows in the directory after all the calls if and only if the first of them that stored a file for its LSN range had the same rows. |
| ParquetCommit.NamesClashExactlyWithinARecord | src/wal/replay.rs:684-734 | Two batches of one send share a name if and only if they and all between them hold events of one record. |
| ParquetCommit.DroppedExactlyWhen | src/sinks/parquet.rs:143-150 | In one send, into any directory, a batch is silently dropped as already committed if and only if its file was there before the send, or it and the batch before it hold events of one record only. |
| ParquetCommit.SplitRecordLosesAnEvent | src/sinks/parquet.rs:143-150 | Two events of one record in two batches: both writes succeed and the second event is nowhere. |
| ParquetCommit.RangesAreDisjoint | src/wal/replay.rs:684-734 | If each record emits at most one event for the sink, the batches of a send have disjoint LSN ranges. |
| ParquetCommit.NameDeterminesRun | src/sinks/parquet.rs:434-442 | Under that premise the file name determines which events a batch holds. |
| ParquetCommit.AcknowledgedStoredExactlyWhen | src/sinks/parquet.rs:143-150 | Over any number of sends and retries, cut into batches and planned differently each time, an acknowledged batch is in the directory row for row if and only if the first attempt that stored a file for its LSN range had the same rows. |
| ParquetCommit.RetriesAreSafeExactlyWhen | src/sinks/parquet.rs:143-150 | For any set of event sequences that the sends may be runs of, every acknowledged batch of every possible series of attempts is stored row for row if and only if any two of the sequences, and each with itself, hold the same events between any two LSNs they share. |
| ParquetCommit.OnePlanIsSafeExactlyWhen | src/sinks/parquet.rs:143-150 | For one event sequence in log order this is so if and only if no record emits two of the events. |
| ParquetCommit.DisagreementLosesARow | src/sinks/parquet.rs:143-150 | Where two sequences differ between two LSNs they share, a send of each succeeds and the rows of the second are not stored. |
| ParquetCommit.SharedRecordLosesARow | src/sinks/parquet.rs:143-150 | Where two neighbouring events belong to one record, two successful attempts lose a row. |
| ParquetCommit.RetryLosesAnEvent | src/sinks/parquet.rs:143-150 | The first of two events of a record is committed alone, the second fails, and after the batch size is raised the retry with both reports success: the second event is nowhere. |
| ParquetCommit.AcknowledgedIsStored | src/sinks/parquet.rs:125-163 | If no record emits two of the events, every acknowledged batch of them is stored row for row after all attempts, however they are cut into batches. |
| PipelineParquet.AcceptedIsStoredExactlyWhen | src/sinks/parquet.rs:125-163 | In every run, under configurations that change in any way from pass to pass, a batch the sink accepted is in its directory row for row if and only if the first attempt of the run that stored a file for its LSN range had the same rows. |
| PipelineParquet.RunsStoreAcceptedBatches | src/sinks/parquet.rs:125-163 | In every run whose passes agree on what they emit for the sink, through crashes, restarts, failures, retries and changes of every other setting: each batch the sink ever accepted is in its directory under its name, row for row. |
| PipelineParquet.SettingsAgree | src/wal/replay.rs:684-734 | The passes of a run agree, whatever their batch, window, checkpoint and timeout settings, if they plan records in one way and no record emits two events for the sink. |
| PipelineParquet.ProcessorChangeLosesAnEvent | src/sinks/parquet.rs:143-150 | A processor that skips the middle one of three records, and one that keeps it: the second batch has the name of the first and reports success, and the middle event is nowhere, although both emit at most one event for a record. |
| ParquetCommit.PassSendsRuns | src/wal/replay.rs:684-734 | Every send of a replay pass is such an attempt: a run, in log order, of the events its records emit, with the node id of the records and its own first and last LSN. |
| VersionedTables.NothingHiddenExactlyWhen | src/repositories/projects.rs:424-443 | In any schedule of transactions that read the version and later commit it plus one, a version found twice tells that nothing was committed in between, at any two moments, if and only if no two committed transactions read the same version. |
| VersionedTables.TwoReadersHideACommit | src/repositories/projects.rs:424-443 | Whenever two open transactions have read the same version and both commit, the version between the commits is the version after them. |
| VersionedTables.Database.TakeStep | src/repositories/projects.rs:424-443 | Where reads are not shared, a commit changes the tables as its transaction says and raises the version by exactly one; any other step leaves tables and version alone. |
| VersionedTables.Database.Interfere | src/services/project.rs:106-127 | Whatever steps other connections take between two reads, rows change only together with the version and the past stays. |
| ProjectRegistry.OutcomeKeepsTable | src/repositories/projects.rs:120-337 | Create, update and delete keep ids, ingest tokens and project keys unique. |
| ProjectRegistry.SucceedsExactlyWhen | src/repositories/projects.rs:120-337 | A transaction succeeds if and only if its row is there, its token is not empty, and no other row has its token or key. |
| ProjectRegistry.CreateAddsTheRow | src/repositories/projects.rs:118-167 | The created row has the fields given and a new id; all other rows are as before. |
| ProjectRegistry.UpdateChangesTheRow | src/repositories/projects.rs:169-277 | The row has each value that was asked for and keeps the others; all other rows are as before. |
| ProjectRegistry.DeleteRemovesTheRow | src/repositories/projects.rs:317-337 | The id is gone; all other rows are as before. |
| ProjectRegistry.SwitchedOffIsNotFound | src/services/project.rs:31-45 | Once a project is disabled or deleted, a snapshot of the table finds it neither by key nor by token nor by id. |
| ProjectRegistry.LostUpdateIsHidden | src/services/project.rs:47-59 | Two creations that both read version 1 commit version 2; a refresh between them records version 2 without the second project, and finds version 2 ever after. |
| ProjectRegistry.LoadSnapshot | src/services/project.rs:106-127 | The retry loop returns the maps of exactly the version it reports, no older than the call, under any interleaving with writers. |
| ProjectRegistry.Registry.ApplySnapshotIfNewer | src/services/project.rs:61-88 | An older or equal snapshot never replaces the installed one; a newer one is installed whole. |
| ProjectRegistry.Registry.RefreshIfNeeded | src/services/project.rs:47-59 | The installed maps are always those of the recorded version; after a refresh that version is at least the database's at the call, and it never decreases. |
| ProjectRegistry.FoundByKeyIsFoundById | src/services/project.rs:31-45 | In one snapshot a project found by key is an enabled row with that key and is also found by its id. |
| ProjectRegistry.Registry.ProjectByKey | src/services/project.rs:31-37 | A key is found if and only if an enabled row of the recorded version has it; the id of the project found is known to the id lookup. |
| ProjectRegistry.Registry.ContainsProjectId | src/services/project.rs:39-45 | The loop over the token map decides whether an enabled row of the recorded version has the id. |
| EventSinkRouting.OutcomeKeepsTables | src/repositories/event_sinks.rs:151-347 | The six transactions keep sink ids and target ids unique and valid, and no sink without its delivery target. |
| EventSinkRouting.SucceedsExactlyWhen | src/repositories/event_sinks.rs:151-347 | Each succeeds if and only if what it names is there, a target it deletes is not in use, and a new name is valid and free. |
| EventSinkRouting.TargetTransactions | src/repositories/event_sinks.rs:151-236 | A transaction on a delivery target stores what it is given, keeps what it is not, and leaves all other targets and the sinks alone. |
| EventSinkRouting.CreateSinkAddsTheRow | src/repositories/event_sinks.rs:238-280 | The created sink has the fields given and a new id; all else is as before. |
| EventSinkRouting.UpdateSinkChangesTheRow | src/repositories/event_sinks.rs:282-328 | The sink has each value that was asked for and keeps the others and its name; all else is as before. |
| EventSinkRouting.DeleteSinkRemovesTheRow | src/repositories/event_sinks.rs:330-347 | The id is gone; all else is as before. |
| EventSinkRouting.RouterServes | src/sinks/state.rs:155-172 | The router knows a name if and only if an enabled sink of that name has an enabled target, and then has that sink as the tables have it. |
| EventSinkState.ListEnabledRuntimeSinks | src/repositories/event_sinks.rs:371-402 | The many reads give what one read would have given, provided the version did not change meanwhile. |
| EventSinkState.TornReadMatchesNoVersion | src/sinks/state.rs:129-142 | Two transactions between the reads give sinks that no version of the tables ever had, which is why the version is read again. |
| EventSinkState.TornReadPassesTheCheck | src/sinks/state.rs:129-142 | Three transactions that share a read let sinks that no version ever had pass both looks at the version. |
| EventSinkState.ReadStableSinks | src/sinks/state.rs:129-142 | Where reads are not shared, the retry loop ends with the sinks of exactly the version it returns, no older than the call. |
| EventSinkState.FromRuntimeSinks | src/sinks/state.rs:155-172 | Builds the router of the list, or fails with a sink that cannot be built. |
| EventSinkState.LoadRouterSnapshot | src/sinks/state.rs:129-142 | Under any interleaving with writers the router returned is that of exactly the version returned, no older than the call. |
| EventSinkState.EventSinkState.RefreshIfNeeded | src/sinks/state.rs:80-106 | The installed router is always that of the recorded version; success leaves it at least as new as the database at the call, failure leaves the old one. |
| EventSinkState.EventSinkState.Route | src/sinks/state.rs:224-241 | A sink name is unknown if and only if the recorded version has no enabled sink of that name with an enabled target. |

## Left out

- HTTP ingest, authentication, the admin API, metrics, logging, the console and the command line.
- Rhai execution, JSON parsing and event validation: the processor is a fixed function from a record to deliveries or an
  issue. `process_record` asks for the project while it runs; that answer is part of the function.
- Kafka, stdout, blackhole and OpenDAL internals: a sink accepts or fails. The Parquet encoding is opaque; a file is
  modelled by the rows it holds.
- The record serializer, CRC32 strength and the text of the checkpoint file, including its checksum and node id checks.
- The WAL lock file, node id resolution, thread scheduling and the flush interval: when a flush happens is arbitrary.
  A full disk is one of the faults of a frame.
- The processor router snapshot (src/ingest/processor.rs:179-201): it reads tables that its version does not cover, so
  the snapshot theorems do not extend to it.
- Retry backoff, trimming of tokens and normalisation of project keys, seeds and migrations. Token and key arguments are
  modelled as already trimmed and normalised; project fields without a part in uniqueness or lookup are one field.
- Parsing of durations and of per-sink batch settings: policies are given, and the error for a bad setting is not
  modelled. Clocks do not overflow.
- `no_sync` mode: the position returned when a record is buffered is only modelled as the writer returns it; nothing is
  claimed of its segment and offset after a rotation.
- Segments are identified by number; that file names sort like numbers is not modelled.
- Batches without metadata, which get a random file name; only replay's batches, which have metadata, are modelled.
- `remove_segments_before`, `read_all_records` and the writer's snapshot for the console, which are further uses of the
  modelled parts.
- An `EventSinkState` without a repository, which never refreshes, and retries of a failed refresh.
- The model reads the clock once more than the code in one case: when a tail window has no sink events and deferral is
  allowed, the code returns before looking at the clock.
- WalWriter.Writer.Flush: after a double fault (a failing rollback) it says that the files begin with their old bytes,
  and not which of the new frames are behind them.
- WalWriter.Writer.Open: promises success only for directories the writer can have left behind; on others it reports the
  error of the first check that fails, and what it has changed by then is not stated.
- TailDeferral.PutOffForeverExactlyWhen: speaks of passes that are each shorter than the checkpoint flush interval and
  of a backlog to which nothing is added; a longer pass persists what is pending at its next forced flush.
