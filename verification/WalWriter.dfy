/** The WAL writer of src/wal/mod.rs: buffering, group flush with rollback, rotation, start-up. */
module WalWriter {
  import opened Bytes
  import opened Wrappers
  import opened FrameCodec
  import opened SegmentCodec
  import opened SegmentFile
  import opened SegmentLog
  import opened WalSpec
  import opened LogReader
  import opened WalFiles

  /** A buffered record and, in reliable mode, the caller waiting for it. */
  datatype Buffered = Buffered(record: Record, waiter: Option<nat>)

  /** A message on a waiter's response channel. */
  datatype Notice = Notice(waiter: nat, outcome: Result<Position, WalError>)

  /** The steps of `ensure_segment_file` and `create_segment_file` that change the directory, in order. */
  datatype CreateStep =
    | RemoveStale | SyncRemoval
    | RemoveTemp | OpenTemp | WriteTemp(written: nat) | SyncTemp | RenameTemp | SyncRename | Reopen

  /** Where the writing of one frame may fail; `written` bytes of a failed write stay in the file. */
  datatype FrameFault =
    | NoFault | SerializeFault | CreateFault(at: CreateStep) | SpaceFault | OpenFault | WriteFault(written: nat)

  /** The fault strikes in `create_segment_file`. */
  predicate CreateFails(fault: FrameFault) {
    fault.CreateFault? && fault.at != RemoveStale && fault.at != SyncRemoval
  }

  /** The fault strikes when the file has its final name. */
  predicate Renamed(fault: FrameFault) {
    fault == CreateFault(SyncRename) || fault == CreateFault(Reopen)
  }

  /** Where `truncate_after` may fail; `CutRemove(at)` with `at` behind the last file is the final directory sync. */
  datatype CutFault = CutOpen | CutSync | CutRemove(at: nat)

  /** The first file after the cut one that a cut with this fault does not reach. */
  function CutStop(segment: nat, current: nat, fault: Option<CutFault>): nat {
    match fault
    case None => current + 1
    case Some(CutRemove(at)) => if segment < at <= current then at else current + 1
    case Some(_) => segment + 1
  }

  /** Everything outside the writer's control in one flush. */
  datatype FlushPlan = FlushPlan(
    frame: nat -> FrameFault,   // by index in the batch
    sync: nat -> bool,          // by segment id: does sync_data fail
    cut: Option<CutFault>,      // truncate_after fails: the double fault
    clock: nat -> u64)          // creation time of a segment, by first LSN

  function Records(batch: seq<Buffered>): (rs: seq<Record>)
    ensures |rs| == |batch|
  {
    seq(|batch|, i requires 0 <= i < |batch| => batch[i].record)
  }

  predicate HasWaiters(batch: seq<Buffered>) {
    exists i :: 0 <= i < |batch| && batch[i].waiter.Some?
  }

  /** `notify_buffered_success`: each waiter gets its own record's position. */
  function SuccessNotices(batch: seq<Buffered>, positions: seq<Position>): seq<Notice>
    requires |positions| == |batch|
  {
    if batch == [] then []
    else
      var n := |batch| - 1;
      SuccessNotices(batch[..n], positions[..n])
      + match batch[n].waiter case None => [] case Some(w) => [Notice(w, Success(positions[n]))]
  }

  /** `notify_buffered_failure`. */
  function FailureNotices(batch: seq<Buffered>, error: WalError): seq<Notice> {
    if batch == [] then []
    else
      var n := |batch| - 1;
      FailureNotices(batch[..n], error)
      + match batch[n].waiter case None => [] case Some(w) => [Notice(w, Failure(error))]
  }

  /** These notices go to the waiters of the batch, one to each, in buffer order; notice k is for entry at[k]. */
  ghost predicate OneEach(batch: seq<Buffered>, notices: seq<Notice>, at: seq<nat>) {
    && |at| == |notices|
    && (forall j, k :: 0 <= j < k < |at| ==> at[j] < at[k])
    && (forall k :: 0 <= k < |at| ==> at[k] < |batch| && batch[at[k]].waiter == Some(notices[k].waiter))
    && (forall i :: 0 <= i < |batch| && batch[i].waiter.Some? ==> i in at)
  }

  /** Every waiter is told where its own record stands. */
  ghost predicate AllTold(c: Codec, log: Log, batch: seq<Buffered>, notices: seq<Notice>) {
    exists at :: OneEach(batch, notices, at) && Positioned(c, log, batch, notices, at)
  }

  ghost predicate Positioned(c: Codec, log: Log, batch: seq<Buffered>, notices: seq<Notice>, at: seq<nat>)
    requires OneEach(batch, notices, at)
  {
    forall k :: 0 <= k < |notices| ==>
      notices[k].outcome.Success? && Stands(c, log, batch[at[k]].record, notices[k].outcome.value)
  }

  /** Every waiter is told this error. */
  ghost predicate AllRefused(batch: seq<Buffered>, notices: seq<Notice>, error: WalError) {
    && (exists at :: OneEach(batch, notices, at))
    && forall k :: 0 <= k < |notices| ==> notices[k].outcome == Failure(error)
  }

  lemma NobodyWaits()
    ensures OneEach([], [], [])
  {
  }

  lemma OneMoreEntry(batch: seq<Buffered>, notices: seq<Notice>, at: seq<nat>)
    requires batch != [] && OneEach(batch[..|batch| - 1], notices, at)
    ensures |at| == |notices|
    ensures forall k :: 0 <= k < |at| ==> at[k] < |batch| - 1 && batch[..|batch| - 1][at[k]] == batch[at[k]]
    ensures batch[|batch| - 1].waiter.None? ==> OneEach(batch, notices, at)
  {
    var n := |batch| - 1;
    assert forall i :: 0 <= i < n ==> batch[..n][i] == batch[i];
  }

  lemma OneMoreWaiter(batch: seq<Buffered>, notices: seq<Notice>, at: seq<nat>, last: Notice)
    requires batch != [] && OneEach(batch[..|batch| - 1], notices, at)
    requires batch[|batch| - 1].waiter == Some(last.waiter)
    ensures OneEach(batch, notices + [last], at + [|batch| - 1])
  {
    var n := |batch| - 1;
    var out := at + [n];
    assert forall i :: 0 <= i < n ==> batch[..n][i] == batch[i];
    forall i | 0 <= i < |batch| && batch[i].waiter.Some? ensures i in out {
      if i < n { assert i in at; } else { assert out[|at|] == n; }
    }
  }

  lemma {:induction false} SuccessTellsAll(c: Codec, log: Log, batch: seq<Buffered>, positions: seq<Position>)
    returns (at: seq<nat>)
    requires AllStand(c, log, batch, positions)
    ensures var notices := SuccessNotices(batch, positions);
            OneEach(batch, notices, at) && Positioned(c, log, batch, notices, at)
    decreases |batch|
  {
    hide Stands, OneEach;
    if batch == [] {
      at := [];
      NobodyWaits();
    } else {
      var n := |batch| - 1;
      at := SuccessTellsAll(c, log, batch[..n], positions[..n]);
      var notices := SuccessNotices(batch[..n], positions[..n]);
      OneMoreEntry(batch, notices, at);
      if batch[n].waiter.Some? {
        OneMoreWaiter(batch, notices, at, Notice(batch[n].waiter.value, Success(positions[n])));
        at := at + [n];
      } else {
        assert notices + [] == notices;
      }
    }
  }

  lemma {:induction false} FailureTellsAll(batch: seq<Buffered>, error: WalError) returns (at: seq<nat>)
    ensures OneEach(batch, FailureNotices(batch, error), at)
    ensures forall k :: 0 <= k < |FailureNotices(batch, error)| ==>
              FailureNotices(batch, error)[k].outcome == Failure(error)
    decreases |batch|
  {
    hide OneEach;
    if batch == [] {
      at := [];
      NobodyWaits();
    } else {
      var n := |batch| - 1;
      at := FailureTellsAll(batch[..n], error);
      var notices := FailureNotices(batch[..n], error);
      OneMoreEntry(batch, notices, at);
      if batch[n].waiter.Some? {
        OneMoreWaiter(batch, notices, at, Notice(batch[n].waiter.value, Failure(error)));
        at := at + [n];
      } else {
        assert notices + [] == notices;
      }
    }
  }

  /** How many of `len` bytes a write that fails after `written` bytes leaves. */
  function Fit(written: nat, len: nat): (n: nat)
    ensures n <= len
  {
    if written < len then written else len
  }

  /** What of a frame's bytes reaches its file. */
  function Written(fault: FrameFault, bytes: seq<byte>): seq<byte> {
    match fault
    case SpaceFault => []
    case OpenFault => []
    case WriteFault(written) => bytes[..Fit(written, |bytes|)]
    case _ => bytes
  }

  /** The WAL directory. `log` is what its files hold between two operations. */
  class Directory {
    const codec: Codec
    const nodeId: seq<byte>
    var files: Files
    var temps: Files         // temporary files, by the segment they are for
    var unsynced: set<nat>   // files with bytes that a crash may still lose
    ghost var log: Log

    constructor (codec: Codec, nodeId: seq<byte>)
      requires Lawful(codec) && codec.validUtf8(nodeId)
      ensures log == [] && files == map[] && unsynced == {} && this.codec == codec && this.nodeId == nodeId
      ensures |nodeId| <= MAX_NODE_ID_LEN ==> Intact()
    {
      this.codec, this.nodeId, files, temps, unsynced, log := codec, nodeId, map[], map[], {}, [];
    }

    ghost predicate Intact()
      reads this
    {
      Lawful(codec) && codec.validUtf8(nodeId) && Holds(codec, nodeId, files, log)
    }

    function NewFile(id: nat, start: nat, now: u64): seq<byte>
      requires |nodeId| <= MAX_NODE_ID_LEN
    {
      Header(codec, SegmentHead(id, now, start, nodeId))
    }

    /** `create_segment_file`, step by step: whichever step fails or is the last one before a crash, the file is there
        whole or not at all. */
    method CreateSegmentFile(id: nat, start: nat, now: u64, fault: FrameFault) returns (res: Result<(), WalError>)
      modifies this`files, this`temps
      ensures res.Success? <==> |nodeId| <= MAX_NODE_ID_LEN && !CreateFails(fault)
      ensures |nodeId| > MAX_NODE_ID_LEN && !CreateFails(fault) ==> res == Failure(NodeIdTooLong)
      ensures files == if |nodeId| <= MAX_NODE_ID_LEN && (res.Success? || Renamed(fault))
                       then old(files)[id := NewFile(id, start, now)]
                       else old(files)
      ensures temps - {id} == old(temps) - {id} && (res.Success? ==> id !in temps)
      ensures id in temps && fault != CreateFault(RemoveTemp) && |nodeId| <= MAX_NODE_ID_LEN ==>
                temps[id] <= NewFile(id, start, now)
    {
      hide Header;
      if fault == CreateFault(RemoveTemp) { return Failure(Io); }
      temps := temps - {id};
      if fault == CreateFault(OpenTemp) { return Failure(Io); }
      temps := temps[id := []];
      var header := SerializeHeader(codec, SegmentHead(id, now, start, nodeId));
      if header.Failure? { return Failure(if CreateFails(fault) then Io else header.error); }
      var bytes := header.value;
      if fault.CreateFault? && fault.at.WriteTemp? {
        temps := temps[id := bytes[..Fit(fault.at.written, |bytes|)]];
        return Failure(Io);
      }
      temps := temps[id := bytes];
      if fault == CreateFault(SyncTemp) || fault == CreateFault(RenameTemp) { return Failure(Io); }
      files, temps := files[id := temps[id]], temps - {id};
      return if Renamed(fault) then Failure(Io) else Success(());
    }

    /** `ensure_segment_file`. */
    method EnsureSegmentFile(id: nat, start: nat, now: u64, fault: FrameFault) returns (res: Result<(), WalError>)
      modifies this`files, this`temps
      ensures |nodeId| > MAX_NODE_ID_LEN ==> res.Failure? && files == old(files)
      ensures |nodeId| <= MAX_NODE_ID_LEN ==>
                var made := old(files)[id := NewFile(id, start, now)];
                if id !in old(files) then
                  && (res.Success? <==> !CreateFails(fault))
                  && files == (if res.Success? || Renamed(fault) then made else old(files))
                else
                  match ParseHeader(codec, old(files)[id])
                  case Failure(e) => res == Failure(e) && files == old(files)
                  case Success(h) =>
                    if h.id != id then res == Failure(SegmentIdMismatch) && files == old(files)
                    else if h.nodeId != nodeId then res == Failure(SegmentNodeIdMismatch) && files == old(files)
                    else if |old(files)[id]| == SEGMENT_HEADER_LEN && h.start != start then
                      && (res.Success? <==> !fault.CreateFault?)
                      && files == (if res.Success? || Renamed(fault) then made
                                   else if fault == CreateFault(RemoveStale) then old(files)
                                   else old(files) - {id})
                    else res.Success? && files == old(files)
    {
      if id !in files {
        res := CreateSegmentFile(id, start, now, fault);
        return;
      }
      var header := ParseHeader(codec, files[id]);
      if header.Failure? { return Failure(header.error); }
      if header.value.id != id { return Failure(SegmentIdMismatch); }
      if header.value.nodeId != nodeId { return Failure(SegmentNodeIdMismatch); }
      if |files[id]| == SEGMENT_HEADER_LEN && header.value.start != start {
        if fault == CreateFault(RemoveStale) { return Failure(Io); }
        files := files - {id};
        if fault == CreateFault(SyncRemoval) { return Failure(Io); }
        res := CreateSegmentFile(id, start, now, fault);
        assert (old(files) - {id})[id := NewFile(id, start, now)] == old(files)[id := NewFile(id, start, now)];
        return;
      }
      return Success(());
    }

    /** Check the free space, open the file for appending, write to it. */
    method WriteToFile(id: nat, bytes: seq<byte>, fault: FrameFault) returns (ok: bool)
      requires id in files
      modifies this`files, this`unsynced
      ensures ok <==> !fault.SpaceFault? && !fault.OpenFault? && !fault.WriteFault?
      ensures files == old(files)[id := old(files)[id] + Written(fault, bytes)]
      ensures unsynced <= old(unsynced) + {id} && (ok ==> unsynced == old(unsynced) + {id})
    {
      if fault.SpaceFault? || fault.OpenFault? {
        assert files[id] + [] == files[id];
        return false;
      }
      files := files[id := files[id] + Written(fault, bytes)];
      unsynced := unsynced + {id};
      return !fault.WriteFault?;
    }

    /** `truncate_after`: cut the old active file back, then remove the files opened after it. */
    method TruncateAfter(segment: nat, offset: nat, current: nat, fault: Option<CutFault>) returns (ok: bool)
      requires segment in files && segment <= current
      modifies this`files, this`unsynced
      ensures ok <==> fault.None?
      ensures var stop := CutStop(segment, current, fault);
              && (forall id :: id in files <==> id in old(files) && !(segment < id < stop))
              && (forall id :: id in files ==>
                    files[id] == if id == segment && fault != Some(CutOpen) then SetLen(old(files)[id], offset)
                                 else old(files)[id])
      ensures ok ==> forall id :: id in unsynced <==> id in old(unsynced) && !(segment <= id <= current)
    {
      if fault == Some(CutOpen) { return false; }
      files := files[segment := SetLen(files[segment], offset)];
      if fault == Some(CutSync) { return false; }
      unsynced := unsynced - {segment};
      for stale := segment + 1 to current + 1
        invariant stale <= CutStop(segment, current, fault)
        invariant forall id :: id in files <==> id in old(files) && !(segment < id < stale)
        invariant forall id :: id in files ==>
                    files[id] == if id == segment then SetLen(old(files)[id], offset) else old(files)[id]
        invariant forall id :: id in unsynced <==> id in old(unsynced) && !(segment <= id < stale)
      {
        if fault == Some(CutRemove(stale)) { return false; }
        files := files - {stale};
        unsynced := unsynced - {stale};
      }
      return fault.None?;
    }

    /** `remove_segments_covered_by_checkpoint`: files are visited in directory order and removed one by one, so a
        failure leaves any part of the work done. */
    method RemoveCoveredSegments(lsn: nat, keepFrom: nat, listing: seq<nat>, removeFails: nat -> bool)
      returns (ok: bool, ghost gone: set<nat>)
      requires forall id :: id in listing <==> id in files
      requires forall i, j :: 0 <= i < j < |listing| ==> listing[i] != listing[j]
      modifies this`files, this`log
      ensures old(Intact()) && ok ==> AllCoveredGone(old(log), files, lsn, keepFrom)
      ensures old(Intact()) ==> GoneUpToFailure(CoveredIds(old(log), lsn, keepFrom), listing, removeFails, files)
      ensures old(Intact()) ==>
                && Intact() && files == old(files) - gone && log == Without(old(log), gone)
                && (ok ==> gone == CoveredIds(old(log), lsn, keepFrom))
                && var covered := CoveredIds(old(log), lsn, keepFrom);
                   var n := FirstFailure(covered, listing, removeFails, 0);
                   gone == GoneAfter(covered, listing, n) && (ok <==> n == |listing|)
    {
      hide Holds, Scan, MaxLsn, CoveredIds, Without, Lawful, GoneAfter, FirstFailure, AllCoveredGone, GoneUpToFailure;
      ghost var log0, files0, intact, covered := log, files, Intact(), CoveredIds(log, lsn, keepFrom);
      gone := {};
      NothingVisited(covered, listing);
      if intact { NothingGone(codec, nodeId, files, log, lsn, keepFrom); }
      for n := 0 to |listing|
        invariant forall id :: id in listing[n..] ==> id in files && files[id] == files0[id]
        invariant intact ==>
                    && files == files0 - gone && log == Without(log0, gone) && gone == GoneAfter(covered, listing, n)
                    && FirstFailure(covered, listing, removeFails, 0) == FirstFailure(covered, listing, removeFails, n)
      {
        var id := listing[n];
        StillListed(listing, n);
        VisitNext(covered, listing, removeFails, n);
        if intact { CoveredFile(codec, nodeId, files0, log0, id, lsn, keepFrom); }
        if id >= keepFrom { continue; }
        var scan := Scan(codec, files[id], id);
        if scan.Failure? { ok := false; RemovedIsIntact(codec, nodeId, files0, log0, gone, intact); return; }
        if MaxLsn(scan.value.records) <= lsn {
          if removeFails(id) {
            ok := false;
            RemovedIsIntact(codec, nodeId, files0, log0, gone, intact);
            if intact { RemovalIsExact(files0, covered, listing, removeFails); }
            return;
          }
          files := files - {id};
          log := Without(log, {id});
          if intact { WithoutOne(log0, gone, id); }
          gone := gone + {id};
        }
      }
      ok := true;
      RemovedIsIntact(codec, nodeId, files0, log0, gone, intact);
      AllVisited(covered, listing, removeFails);
      if intact {
        CoveredAreListed(codec, nodeId, files0, log0, lsn, keepFrom, listing);
        RemovalIsExact(files0, covered, listing, removeFails);
        CoveredExactly(codec, nodeId, files0, log0, lsn, keepFrom);
      }
    }
  }

  class Writer {
    const dir: Directory
    const segmentMax: nat
    const flushRecords: nat
    const noSync: bool
    var segmentId: nat
    var offset: nat
    var nextLsn: nat
    var buffered: seq<Buffered>

    /** Settings as `WalWriter::new` clamps them; `Open` makes the writer usable. */
    constructor (dir: Directory, segmentMaxBytes: nat, flushRecords: nat, noSync: bool)
      ensures this.dir == dir && this.noSync == noSync && buffered == []
      ensures this.segmentMax
              == if segmentMaxBytes > SEGMENT_HEADER_LEN then segmentMaxBytes else SEGMENT_HEADER_LEN + 1
      ensures this.flushRecords == if flushRecords > 0 then flushRecords else 1
    {
      this.dir, this.noSync := dir, noSync;
      this.segmentMax := Max(segmentMaxBytes, SEGMENT_HEADER_LEN + 1);
      this.flushRecords := Max(flushRecords, 1);
      segmentId, offset, nextLsn, buffered := 0, 0, 1, [];
    }

    /** The writer's fields describe the last file. */
    ghost predicate OnLastFile()
      reads this, dir
    {
      && dir.Intact() && dir.log != []
      && Last(dir.log).id == segmentId && Last(dir.log).torn == []
      && offset == FileLen(dir.codec, Last(dir.log))
    }

    /** The LSN the next durable record will get. */
    ghost function DurableNext(): int
      reads this
    {
      nextLsn - |buffered|
    }

    ghost predicate Valid()
      reads this, dir
    {
      && OnLastFile()
      && dir.unsynced == {}
      && 1 <= DurableNext() && nextLsn <= U64_LIMIT
      && Appendable(dir.log, DurableNext())
      && Consecutive(buffered, dir.nodeId)
      && (buffered != [] ==> buffered[0].record.lsn == DurableNext())
    }

    /** `append_frame_locked`. */
    method AppendFrame(bytes: seq<byte>, lsn: nat, fault: FrameFault, now: u64, ghost r: Record)
      returns (res: Result<Position, WalError>)
      requires OnLastFile() && Appendable(dir.log, lsn) && segmentId + 1 < U64_LIMIT
      requires r.lsn == lsn && Encodable(dir.codec, r) && bytes == Frame(dir.codec, r)
      modifies this`segmentId, this`offset, dir
      ensures old(segmentId) <= segmentId <= old(segmentId) + 1
      ensures Grown(old(dir.files), dir.files, old(segmentId), segmentId)
      ensures fault == NoFault ==> res.Success?
      ensures res.Success? ==>
                && OnLastFile() && Last(dir.log).recs != []
                && dir.log == AppendRecord(dir.codec, segmentMax, old(dir.log), r, now)
                && res.value == LastFrame(dir.codec, dir.log) && res.value.segment == segmentId
                && Stands(dir.codec, dir.log, r, res.value)
      // a frame stays in its segment if it fits or is the first one there, and opens the next segment otherwise
      ensures res.Success? ==>
                res.value == if old(offset) == SEGMENT_HEADER_LEN || old(offset) + |bytes| <= segmentMax
                             then Position(lsn, old(segmentId), old(offset))
                             else Position(lsn, old(segmentId) + 1, SEGMENT_HEADER_LEN)
      ensures dir.unsynced <= old(dir.unsynced) + {segmentId}
      ensures res.Success? ==> dir.unsynced == old(dir.unsynced) + {segmentId}
      ensures res.Failure? ==> dir.log == old(dir.log)
    {
      hide Frame, Encodable, Holds, Header, ParseHeader, Stands, Grown, Lawful;
      ghost var c, nodeId, log, files := dir.codec, dir.nodeId, dir.log, dir.files;
      AppendRecordShape(c, log, r, segmentMax, now);
      FilesOfLog(c, nodeId, files, log);
      var rotates := offset > SEGMENT_HEADER_LEN && offset + |bytes| > segmentMax;
      if rotates {
        ghost var header := dir.NewFile(segmentId + 1, lsn, now);
        NextGrown(files, segmentId, header);
        AppendToNewFile(c, nodeId, files, log, r, now);
        segmentId := segmentId + 1;
        offset := SEGMENT_HEADER_LEN;
        var created := dir.EnsureSegmentFile(segmentId, lsn, now, fault);
        if created.Failure? { return Failure(Io); }
        ghost var withNew := files[old(segmentId) + 1 := header];
        assert withNew[old(segmentId) + 1 := header + Written(fault, bytes)]
               == files[old(segmentId) + 1 := header + Written(fault, bytes)];
        NextGrown(files, old(segmentId), header + Written(fault, bytes));
      } else {
        StayGrown(files, segmentId, Written(fault, bytes));
        AppendInPlace(c, nodeId, files, log, r);
      }
      var position := Position(lsn, segmentId, offset);
      var written := dir.WriteToFile(segmentId, bytes, fault);
      if !written { return Failure(Io); }
      offset := offset + |bytes|;
      dir.log := AppendRecord(c, segmentMax, log, r, now);
      return Success(position);
    }

    /** The closure in `flush_buffer_locked`: write every frame, then sync every file written to. */
    method WriteBatch(batch: seq<Buffered>, plan: FlushPlan)
      returns (res: Result<(), WalError>, positions: seq<Position>)
      requires OnLastFile() && dir.unsynced == {} && Consecutive(batch, dir.nodeId)
      requires batch != [] && Appendable(dir.log, batch[0].record.lsn) && segmentId + |batch| < U64_LIMIT
      modifies this`segmentId, this`offset, dir
      ensures Grown(old(dir.files), dir.files, old(segmentId), segmentId)
      ensures forall id :: id in dir.unsynced ==> old(segmentId) <= id <= segmentId
      ensures res.Success? ==>
                && |positions| == |batch|
                && OnLastFile() && dir.unsynced == {} && Last(dir.log).recs != []
                && dir.log == AppendAll(dir.codec, segmentMax, old(dir.log), Records(batch), plan.clock)
                && AllStand(dir.codec, dir.log, batch, positions)
      ensures res.Success? ==> AllSynced(plan, positions)
      ensures Faultless(plan, batch, dir.codec) ==> res.Success?
    {
      hide Frame, Encodable, Holds, Stands, FrameLen, Lawful, Grown, AllStand, FileLen, AppendRecord;
      ghost var c, log0, recs := dir.codec, dir.log, Records(batch);
      positions := [];
      AllStandLength(c, dir.log, [], []);
      GrownFromItself(dir.files, segmentId, c, dir.nodeId, dir.log);
      for i := 0 to |batch|
        invariant OnLastFile() && Appendable(dir.log, batch[0].record.lsn + i)
        invariant i > 0 ==> Last(dir.log).recs != []
        invariant old(segmentId) <= segmentId <= old(segmentId) + i
        invariant Grown(old(dir.files), dir.files, old(segmentId), segmentId)
        invariant dir.log == AppendAll(c, segmentMax, log0, recs[..i], plan.clock)
        invariant AllStand(c, dir.log, batch[..i], positions)
        invariant forall id :: id in dir.unsynced ==> old(segmentId) <= id <= segmentId
        invariant forall k :: 0 <= k < |positions| ==> positions[k].segment in dir.unsynced
      {
        var record := batch[i].record;
        if plan.frame(i).SerializeFault? { return Failure(Io), positions; }
        var bytes := SerializeFrame(dir.codec, record);
        if bytes.Failure? { return Failure(BadFrame(bytes.error)), positions; }
        BufferedIsEncodable(c, dir.nodeId, batch, i);
        ghost var log, files, segment := dir.log, dir.files, segmentId;
        var position := AppendFrame(bytes.value, record.lsn, plan.frame(i), plan.clock(record.lsn), record);
        GrownTwice(old(dir.files), files, dir.files, old(segmentId), segment, segmentId);
        if position.Failure? { return Failure(position.error), positions; }
        assert recs[..i + 1][..i] == recs[..i];
        OneMoreStands(c, log, batch, i, positions, segmentMax, plan.clock(record.lsn), position.value);
        positions := positions + [position.value];
      }
      assert recs[..|batch|] == recs && batch[..|batch|] == batch;
      AllStandLength(c, dir.log, batch, positions);
      var touched := dir.unsynced;
      while touched != {}
        invariant touched == dir.unsynced
        invariant forall k :: 0 <= k < |positions| ==>
                    positions[k].segment in touched || !plan.sync(positions[k].segment)
        invariant OnLastFile() && dir.log == AppendAll(c, segmentMax, log0, recs, plan.clock)
        invariant Grown(old(dir.files), dir.files, old(segmentId), segmentId)
        invariant forall id :: id in dir.unsynced ==> old(segmentId) <= id <= segmentId
        decreases touched
      {
        var id := Smallest(touched);
        if plan.sync(id) { return Failure(Io), positions; }
        touched := touched - {id};
        dir.unsynced := dir.unsynced - {id};
      }
      return Success(()), positions;
    }

    /** The failure branch of `flush_buffer_locked`. If the rollback fails as well, the old bytes are still there. */
    method Rollback(batch: seq<Buffered>, error: WalError, segment: nat, offset0: nat, firstLsn: nat, hasWaiters: bool,
                    cut: Option<CutFault>, ghost files: Files, ghost log: Log)
      returns (issue: WalError, notices: seq<Notice>)
      requires Lawful(dir.codec) && dir.codec.validUtf8(dir.nodeId)
      requires Holds(dir.codec, dir.nodeId, files, log) && log != []
      requires Last(log).id == segment && offset0 == FileLen(dir.codec, Last(log)) && Last(log).torn == []
      requires Grown(files, dir.files, segment, segmentId)
      requires forall id :: id in dir.unsynced ==> segment <= id <= segmentId
      modifies this`segmentId, this`offset, this`nextLsn, this`buffered, dir
      ensures cut.None? ==>
                && dir.files == files && dir.log == log && dir.unsynced == {} && issue == error
                && segmentId == segment && offset == offset0 && OnLastFile()
                && if hasWaiters
                   then nextLsn == firstLsn && buffered == old(buffered) && notices == FailureNotices(batch, error)
                   else nextLsn == old(nextLsn) && buffered == batch && notices == []
      ensures cut.Some? ==>
                && Grown(files, dir.files, segment, segmentId) && notices == []
                && segmentId == old(segmentId) && nextLsn == old(nextLsn) && buffered == old(buffered)
    {
      hide Holds, Lawful, FailureNotices, Grown;
      FilesOfLog(dir.codec, dir.nodeId, files, log);
      ghost var after := dir.files;
      GrownKeepsFirst(files, after, segment, segmentId);
      var ok := dir.TruncateAfter(segment, offset0, segmentId, cut);
      if !ok {
        CutKeepsOldBytes(files, after, segment, segmentId, CutStop(segment, segmentId, cut), cut != Some(CutOpen),
                         dir.files);
        return Io, [];
      }
      RollbackRestores(files, after, segment, segmentId, dir.files);
      dir.log := log;
      assert dir.unsynced == {};
      segmentId, offset := segment, offset0;
      if hasWaiters {
        nextLsn := firstLsn;
        return error, FailureNotices(batch, error);
      } else {
        buffered := batch;
        return error, [];
      }
    }

    /** `flush_buffer_locked`. */
    method Flush(plan: FlushPlan) returns (res: Result<(), WalError>, notices: seq<Notice>,
                                           ghost positions: seq<Position>)
      requires Valid() && segmentId + |buffered| < U64_LIMIT
      modifies this`segmentId, this`offset, this`nextLsn, this`buffered, dir
      ensures res.Success? || plan.cut.None? ==> Valid()
      ensures Faultless(plan, old(buffered), dir.codec) ==> res.Success?
      // success: every frame is in the log and synced, every waiter learns its record's own position
      ensures res.Success? ==>
                && buffered == [] && nextLsn == old(nextLsn)
                && dir.log == AppendAll(dir.codec, segmentMax, old(dir.log), Records(old(buffered)), plan.clock)
                && AllStand(dir.codec, dir.log, old(buffered), positions)
                && notices == SuccessNotices(old(buffered), positions)
                && AllTold(dir.codec, dir.log, old(buffered), notices) && AllSynced(plan, positions)
      // failure, whichever frame or sync failed: the directory and the write position are as before
      ensures res.Failure? && plan.cut.None? ==>
                && dir.files == old(dir.files) && dir.log == old(dir.log)
                && segmentId == old(segmentId) && offset == old(offset)
                && (if exists b :: b in old(buffered) && b.waiter.Some?
                    then && buffered == [] && nextLsn == old(buffered)[0].record.lsn
                         && notices == FailureNotices(old(buffered), res.error)
                         && AllRefused(old(buffered), notices, res.error)
                    else buffered == old(buffered) && nextLsn == old(nextLsn) && notices == [])
      // the double fault: the batch is gone but its LSNs stay used up, and the files still begin with the old bytes
      ensures res.Failure? && plan.cut.Some? ==>
                && buffered == [] && nextLsn == old(nextLsn) && old(buffered) != [] && notices == []
                && Grown(old(dir.files), dir.files, old(segmentId), segmentId)
    {
      hide Holds, Lawful, AllStand, AppendAll, Faultless, Records, Grown, HasWaiters, SuccessNotices, FailureNotices,
           FileLen, OneEach, Positioned, AllSynced;
      positions := [];
      if buffered == [] {
        NothingToFlush(dir.codec, segmentMax, dir.log, plan.clock);
        NobodyToTell(dir.codec, dir.log, plan);
        return Success(()), [], positions;
      }
      var batch := buffered;
      ghost var files, log := dir.files, dir.log;
      buffered := [];
      var rollbackSegment, rollbackOffset, rollbackNextLsn := segmentId, offset, batch[0].record.lsn;
      var hasWaiters := HasWaiters(batch);
      HasWaitersMeans(batch);
      var written, where := WriteBatch(batch, plan);
      positions := where;
      if written.Failure? {
        var issue;
        issue, notices := Rollback(batch, written.error, rollbackSegment, rollbackOffset, rollbackNextLsn, hasWaiters,
                                   plan.cut, files, log);
        ghost var told := FailureTellsAll(batch, issue);
        return Failure(issue), notices, positions;
      }
      ghost var told := SuccessTellsAll(dir.codec, dir.log, batch, where);
      return written, SuccessNotices(batch, where), positions;
    }

    /** `append_buffered`; the out-parameter `accepted` is what `no_sync` callers get. */
    method AppendBuffered(record: Record, waiter: Option<nat>, plan: FlushPlan)
      returns (accepted: Result<Position, WalError>, notices: seq<Notice>)
      requires Valid() && nextLsn < U64_LIMIT && segmentId + |buffered| + 1 < U64_LIMIT
      modifies this`segmentId, this`offset, this`nextLsn, this`buffered, dir
      ensures accepted.Success? || plan.cut.None? ==> Valid()
      ensures accepted.Success? ==> accepted.value == Position(old(nextLsn), old(segmentId), old(offset))
      ensures |old(buffered)| + 1 < flushRecords ==>
                && accepted.Success? && notices == [] && nextLsn == old(nextLsn) + 1
                && buffered == old(buffered) + [Buffered(record.(lsn := old(nextLsn), nodeId := dir.nodeId), waiter)]
                && dir.files == old(dir.files) && dir.log == old(dir.log)
      // the flush this append triggered failed: the record is dropped with its batch, or stays buffered without waiters
      ensures accepted.Failure? && plan.cut.None? ==>
                var batch := old(buffered) + [Buffered(record.(lsn := old(nextLsn), nodeId := dir.nodeId), waiter)];
                && |batch| >= flushRecords
                && dir.files == old(dir.files) && dir.log == old(dir.log)
                && segmentId == old(segmentId) && offset == old(offset)
                && (if exists b :: b in batch && b.waiter.Some?
                    then buffered == [] && nextLsn == batch[0].record.lsn
                        && notices == FailureNotices(batch, accepted.error)
                        && AllRefused(batch, notices, accepted.error)
                    else buffered == batch && nextLsn == old(nextLsn) + 1 && notices == [])
      ensures |old(buffered)| + 1 >= flushRecords && accepted.Success? ==>
                var batch := old(buffered) + [Buffered(record.(lsn := old(nextLsn), nodeId := dir.nodeId), waiter)];
                && buffered == [] && nextLsn == old(nextLsn) + 1
                && dir.log == AppendAll(dir.codec, segmentMax, old(dir.log), Records(batch), plan.clock)
                && AllTold(dir.codec, dir.log, batch, notices)
    {
      hide Holds, Lawful, AllStand, AppendAll, Faultless, Records, Consecutive, AllTold, AllRefused, AllSynced;
      var position := Position(nextLsn, segmentId, offset);
      OneMoreBuffered(buffered, record, nextLsn, dir.nodeId, waiter);
      buffered := buffered + [Buffered(Stamped(record, nextLsn, dir.nodeId), waiter)];
      nextLsn := nextLsn + 1;
      notices := [];
      if |buffered| >= flushRecords {
        var res; ghost var positions;
        res, notices, positions := Flush(plan);
        if res.Failure? { return Failure(res.error), notices; }
      }
      return Success(position), notices;
    }

    /** `WalWriter::new` from the checkpoint on: find the active segment and next LSN, open, repair. */
    method Open(checkpoint: Option<Position>, now: u64, fault: FrameFault) returns (res: Result<(), WalError>)
      requires dir.Intact() ==> dir.log == [] || Last(dir.log).id < U64_LIMIT
      requires checkpoint.Some? ==> checkpoint.value.segment + 1 < U64_LIMIT
      modifies this`segmentId, this`offset, this`nextLsn, this`buffered, dir
      ensures |dir.nodeId| > MAX_NODE_ID_LEN ==> res.Failure? && dir.files == old(dir.files)
      ensures old(dir.Intact()) && NextLsn(old(dir.log), checkpoint) <= U64_LIMIT - 1 && !fault.CreateFault?
              && TornStartMatches(old(dir.log), checkpoint) ==>
                && res.Success? && Valid() && buffered == []
                && dir.log == Restart(dir.codec, old(dir.log), checkpoint, now)
                && nextLsn == NextLsn(old(dir.log), checkpoint)
    {
      hide Holds, ParseHeader, Header, Restart, Scan, Lawful, NextLsn, SetLen;
      ghost var c, nodeId, log, files := dir.codec, dir.nodeId, dir.log, dir.files;
      ghost var ok := dir.Intact() && NextLsn(log, checkpoint) < U64_LIMIT && !fault.CreateFault?
                      && TornStartMatches(log, checkpoint);
      buffered := [];
      segmentId := RecoverActiveSegmentId(dir.files, checkpoint, c, nodeId, log);
      var next := RecoverNextLsn(dir.codec, dir.files, checkpoint, nodeId, log);
      if next.Failure? { return Failure(next.error); }
      nextLsn := next.value;
      if ok { ActiveFile(c, nodeId, files, log, checkpoint); }
      var ensured := dir.EnsureSegmentFile(segmentId, nextLsn, now, fault);
      if ensured.Failure? { return Failure(ensured.error); }
      if ok { RestartHolds(c, nodeId, files, log, checkpoint, now, dir.files); }
      var scan := Scan(dir.codec, dir.files[segmentId], segmentId);
      if scan.Failure? { return Failure(scan.error); }
      offset := scan.value.validOffset;
      dir.files := dir.files[segmentId := SetLen(dir.files[segmentId], offset)];
      dir.unsynced := {};
      dir.log := Restart(c, log, checkpoint, now);
      if ok { RestartAppendable(c, log, checkpoint, now); }
      return Success(());
    }
  }

  /** Exactly the segments before `keepFrom` that hold no record above `lsn` are gone. */
  ghost predicate AllCoveredGone(log: Log, files: Files, lsn: nat, keepFrom: nat) {
    forall k :: 0 <= k < |log| ==> (log[k].id !in files <==> log[k].id < keepFrom && NoneAbove(log[k].recs, lsn))
  }

  /** Of the files listed exactly the covered ones are gone that come before the first one that cannot be removed. */
  ghost predicate GoneUpToFailure(covered: set<nat>, listing: seq<nat>, fails: nat -> bool, files: Files) {
    forall m :: 0 <= m < |listing| ==>
      (listing[m] !in files <==>
       listing[m] in covered && forall j :: 0 <= j <= m && listing[j] in covered ==> !fails(listing[j]))
  }

  lemma RemovalIsExact(files: Files, covered: set<nat>, listing: seq<nat>, fails: nat -> bool)
    requires forall id :: id in listing <==> id in files
    requires forall i, j :: 0 <= i < j < |listing| ==> listing[i] != listing[j]
    ensures var n := FirstFailure(covered, listing, fails, 0);
            GoneUpToFailure(covered, listing, fails, files - GoneAfter(covered, listing, n))
  {
    var n := FirstFailure(covered, listing, fails, 0);
    forall m | 0 <= m < |listing| ensures listing[m] in listing[..n] <==> m < n {
      if m < n { assert listing[..n][m] == listing[m]; }
    }
  }

  lemma CoveredExactly(c: Codec, nodeId: seq<byte>, files: Files, log: Log, lsn: nat, keepFrom: nat)
    requires Holds(c, nodeId, files, log)
    ensures AllCoveredGone(log, files - CoveredIds(log, lsn, keepFrom), lsn, keepFrom)
  {
    hide Image, SegmentOk, MaxLsn;
    forall k | 0 <= k < |log|
      ensures log[k].id in CoveredIds(log, lsn, keepFrom) <==> log[k].id < keepFrom && NoneAbove(log[k].recs, lsn)
    {
      MaxLsnIsHighest(log[k].recs, lsn);
    }
  }

  lemma HasWaitersMeans(batch: seq<Buffered>)
    ensures HasWaiters(batch) <==> exists b :: b in batch && b.waiter.Some?
  {
  }

  lemma NothingGone(c: Codec, nodeId: seq<byte>, files: Files, log: Log, lsn: nat, keepFrom: nat)
    requires Holds(c, nodeId, files, log)
    ensures files == files - {} && log == Without(log, {}) && {} <= CoveredIds(log, lsn, keepFrom)
  {
    hide Image, SegmentOk;
    NothingRemoved(log);
  }

  lemma {:induction false} NothingRemoved(log: Log)
    ensures Without(log, {}) == log
  {
    if log != [] {
      NothingRemoved(log[1..]);
      assert log == [log[0]] + log[1..];
    }
  }

  lemma RemovedIsIntact(c: Codec, nodeId: seq<byte>, files: Files, log: Log, gone: set<nat>, intact: bool)
    requires intact ==> Holds(c, nodeId, files, log)
    ensures intact ==> Holds(c, nodeId, files - gone, Without(log, gone))
  {
    if intact { RemovedFilesHold(c, nodeId, files, log, gone); }
  }

  lemma StillListed(listing: seq<nat>, n: nat)
    requires n < |listing| && forall i, j :: 0 <= i < j < |listing| ==> listing[i] != listing[j]
    ensures listing[n] in listing[n..] && forall x :: x in listing[n + 1..] ==> x in listing[n..] && x != listing[n]
  {
    var later := listing[n + 1..];
    assert listing[n..] == [listing[n]] + later;
    assert forall m :: 0 <= m < |later| ==> later[m] == listing[n + 1 + m];
  }

  lemma NothingVisited(covered: set<nat>, listing: seq<nat>)
    ensures GoneAfter(covered, listing, 0) == {}
  {
  }

  lemma VisitNext(covered: set<nat>, listing: seq<nat>, fails: nat -> bool, n: nat)
    requires n < |listing|
    ensures GoneAfter(covered, listing, n + 1)
            == GoneAfter(covered, listing, n) + if listing[n] in covered then {listing[n]} else {}
    ensures FirstFailure(covered, listing, fails, n)
            == if listing[n] in covered && fails(listing[n]) then n else FirstFailure(covered, listing, fails, n + 1)
  {
    assert listing[..n + 1] == listing[..n] + [listing[n]];
  }

  lemma AllVisited(covered: set<nat>, listing: seq<nat>, fails: nat -> bool)
    ensures FirstFailure(covered, listing, fails, |listing|) == |listing|
    ensures (forall id :: id in covered ==> id in listing) ==> GoneAfter(covered, listing, |listing|) == covered
  {
    assert listing[..|listing|] == listing;
  }

  lemma CoveredAreListed(c: Codec, nodeId: seq<byte>, files: Files, log: Log, lsn: nat, keepFrom: nat,
                         listing: seq<nat>)
    requires Holds(c, nodeId, files, log) && forall id :: id in listing <==> id in files
    ensures forall id :: id in CoveredIds(log, lsn, keepFrom) ==> id in listing
  {
    hide Image, SegmentOk, MaxLsn;
  }

  /** `assign_wal_metadata`. */
  function Stamped(record: Record, lsn: nat, nodeId: seq<byte>): Record {
    record.(lsn := lsn, nodeId := nodeId)
  }

  ghost predicate Consecutive(batch: seq<Buffered>, nodeId: seq<byte>) {
    forall i :: 0 <= i < |batch| ==>
      && batch[i].record.lsn == batch[0].record.lsn + i && batch[i].record.lsn < U64_LIMIT
      && batch[i].record.nodeId == nodeId
  }

  lemma OneMoreBuffered(batch: seq<Buffered>, record: Record, lsn: nat, nodeId: seq<byte>, waiter: Option<nat>)
    requires Consecutive(batch, nodeId) && lsn < U64_LIMIT
    requires batch != [] ==> lsn == batch[0].record.lsn + |batch|
    ensures Consecutive(batch + [Buffered(Stamped(record, lsn, nodeId), waiter)], nodeId)
  {
  }

  lemma NothingToFlush(c: Codec, segmentMax: nat, log: Log, clock: nat -> u64)
    requires log != []
    ensures AppendAll(c, segmentMax, log, Records([]), clock) == log
    ensures AllStand(c, log, [], []) && SuccessNotices([], []) == []
  {
  }

  lemma NobodyToTell(c: Codec, log: Log, plan: FlushPlan)
    ensures AllTold(c, log, [], []) && AllSynced(plan, [])
  {
    assert OneEach([], [], []) && Positioned(c, log, [], [], []);
  }

  /** Every file that holds one of these frames was synced. */
  ghost predicate AllSynced(plan: FlushPlan, positions: seq<Position>) {
    forall k :: 0 <= k < |positions| ==> !plan.sync(positions[k].segment)
  }

  /** Nothing goes wrong in this flush. */
  ghost predicate Faultless(plan: FlushPlan, batch: seq<Buffered>, c: Codec) {
    && (forall i :: 0 <= i < |batch| ==>
          plan.frame(i) == NoFault && |c.serialize(batch[i].record)| < U32_LIMIT)
    && (forall id :: !plan.sync(id))
  }

  ghost predicate AllStand(c: Codec, log: Log, batch: seq<Buffered>, positions: seq<Position>) {
    && |positions| == |batch|
    && forall i :: 0 <= i < |batch| ==> Stands(c, log, batch[i].record, positions[i])
  }

  lemma AllStandLength(c: Codec, log: Log, batch: seq<Buffered>, positions: seq<Position>)
    ensures AllStand(c, log, [], [])
    ensures AllStand(c, log, batch, positions) ==> |positions| == |batch|
  {
  }

  lemma BufferedIsEncodable(c: Codec, nodeId: seq<byte>, batch: seq<Buffered>, i: nat)
    requires Consecutive(batch, nodeId) && i < |batch| && |nodeId| <= MAX_NODE_ID_LEN && c.validUtf8(nodeId)
    ensures SerializeFrame(c, batch[i].record).Success? <==> |c.serialize(batch[i].record)| < U32_LIMIT
    ensures SerializeFrame(c, batch[i].record).Success? ==>
              Encodable(c, batch[i].record)
              && SerializeFrame(c, batch[i].record).value == Frame(c, batch[i].record)
  {
    hide Frame;
  }

  lemma OneMoreStands(c: Codec, log: Log, batch: seq<Buffered>, i: nat, positions: seq<Position>,
                      segmentMax: nat, now: nat, p: Position)
    requires i < |batch| && log != [] && AllStand(c, log, batch[..i], positions)
    requires Stands(c, AppendRecord(c, segmentMax, log, batch[i].record, now), batch[i].record, p)
    ensures AllStand(c, AppendRecord(c, segmentMax, log, batch[i].record, now), batch[..i + 1], positions + [p])
  {
    hide Stands, AppendRecord;
    forall j | 0 <= j < i
      ensures Stands(c, AppendRecord(c, segmentMax, log, batch[i].record, now), batch[j].record, positions[j])
    {
      assert batch[..i][j] == batch[j];
      AppendKeepsStanding(c, log, batch[i].record, segmentMax, now, batch[j].record, positions[j]);
    }
  }

  lemma GrownFromItself(files: Files, segment: nat, c: Codec, nodeId: seq<byte>, log: Log)
    requires Holds(c, nodeId, files, log) && log != [] && Last(log).id == segment
    ensures Grown(files, files, segment, segment) && |nodeId| <= MAX_NODE_ID_LEN
  {
    FilesOfLog(c, nodeId, files, log);
  }
}
