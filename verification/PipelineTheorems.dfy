/** What holds in every state of every run of the pipeline. */
module PipelineTheorems {
  import opened Bytes
  import opened Wrappers
  import opened FrameCodec
  import opened SegmentFile
  import opened SegmentLog
  import opened WalSpec
  import opened WalFiles
  import opened LogInvariant
  import opened ReplayPlan
  import opened Replay
  import opened ReplayExact
  import opened Pipeline
  import opened PipelineWriter
  import opened PipelineReplay

  lemma InitialInv(e: Setup)
    ensures Inv(e, Initial())
  {
    assert Flat([]) == [];
  }

  /** Every step keeps the invariant. */
  lemma NextKeepsInv(e: Setup, s: System, op: Op)
    requires Inv(e, s)
    ensures Inv(e, Next(e, s, op))
  {
    hide Inv;
    if Enabled(e, s, op) {
      match op
      case Append(record) => AppendKeepsInv(e, s, record);
      case Flush(clock) => FlushKeepsInv(e, s, clock);
      case FlushFails => FlushFailsKeepsInv(e, s);
      case CrashInFlush(kept, torn, clock, extra) => CrashInFlushKeepsInv(e, s, kept, torn, clock, extra);
      case Crash => CrashKeepsInv(e, s);
      case StartInterrupted => StartInterruptedKeepsInv(e, s);
      case Start(now) => StartKeepsInv(e, s, now);
      case Initialize(latest) => ReadKeepsInv(e, s, latest);
      case BeginPass(_, _, _, _) => BeginKeepsInv(e, s, op);
      case Perform(gone) =>
        var eff := s.pass.value.todo[0];
        if eff.Cleanup? { CleanupKeepsInv(e, s, gone); }
        else if eff.WriteCheckpoint? && eff.outcome != Refused { WriteKeepsInv(e, s, gone); }
        else { PlainEffectKeepsInv(e, s, gone); }
    }
  }

  lemma {:induction false} RunKeepsInv(e: Setup, s: System, ops: seq<Op>)
    requires Inv(e, s)
    ensures Inv(e, Run(e, s, ops))
    decreases |ops|
  {
    hide Inv, Next;
    if ops != [] {
      NextKeepsInv(e, s, ops[0]);
      RunKeepsInv(e, Next(e, s, ops[0]), ops[1..]);
    }
  }

  // ---- main results on runs -------------------------------------------------------------------

  /** At-least-once: after any run, every durable record the checkpoint covers was quarantined, had all its events
      accepted under the configuration that marked it, or was jumped over by a recorded reset. */
  lemma RunsDeliverAtLeastOnce(e: Setup, ops: seq<Op>, lsn: nat)
    requires 1 <= lsn <= LsnOf(Run(e, Initial(), ops).checkpoint)
    ensures var s := Run(e, Initial(), ops);
            && lsn <= |s.hist| && s.hist[lsn - 1].lsn == lsn
            && (lsn in s.jumped || (lsn in s.marks && MarkHolds(s.marks[lsn], s.hist[lsn - 1], s.log)))
  {
    hide Run, Inv, LogOk, AcksHold, MarkHolds, PassOk, TornStarts, MemoryOk;
    InitialInv(e);
    RunKeepsInv(e, Initial(), ops);
    var s := Run(e, Initial(), ops);
    InvParts(e, s);
    LogIsOrdered(e.codec, s.segs, s.checkpoint, s.hist);
    MaxLsnOfLog(e.codec, s.segs, s.checkpoint, s.hist);
  }

  /** Log contiguity: in every reachable state LSNs are never shared, each segment's start LSN is its first record's,
      an empty active segment starts at the next LSN to be written, and the log above the checkpoint has no gap. */
  lemma RunsKeepLogContiguous(e: Setup, ops: seq<Op>)
    ensures var s := Run(e, Initial(), ops);
            && (forall i :: 0 <= i < |s.hist| ==> s.hist[i].lsn == i + 1)
            && (forall k :: 0 <= k < |s.segs| && s.segs[k].recs != [] ==>
                  forall j :: 0 <= j < |s.segs[k].recs| ==> s.segs[k].recs[j].lsn == s.segs[k].start + j)
            && (s.memory.Up? ==> s.segs != [] && (Last(s.segs).recs == [] ==> Last(s.segs).start == |s.hist| + 1))
            && (s.checkpoint.None? ==> Flat(s.segs) == s.hist)
            && (s.checkpoint.Some? ==> At(e.codec, s.segs, s.hist, s.checkpoint.value))
  {
    hide Run;
    InitialInv(e);
    RunKeepsInv(e, Initial(), ops);
    var s := Run(e, Initial(), ops);
    InvParts(e, s);
    forall k, j | 0 <= k < |s.segs| && s.segs[k].recs != [] && 0 <= j < |s.segs[k].recs|
      ensures s.segs[k].recs[j].lsn == s.segs[k].start + j
    {
      assert HoldsRun(e.codec, s.segs[k], s.hist);
    }
  }

  /** Durable ACK: in every reachable state an acknowledged record is readable at the reported position, unless its
      segment was removed while the checkpoint covered it. */
  lemma RunsKeepAcks(e: Setup, ops: seq<Op>, lsn: nat)
    requires lsn in Run(e, Initial(), ops).acked
    ensures var s := Run(e, Initial(), ops);
            1 <= lsn <= |s.hist| && AckHolds(e.codec, s.segs, s.checkpoint, s.hist[lsn - 1], s.acked[lsn])
  {
    hide Run, AckHolds;
    InitialInv(e);
    RunKeepsInv(e, Initial(), ops);
    InvParts(e, Run(e, Initial(), ops));
  }

  /** A flush in reliable mode acknowledges every buffered record at a position where it stands; nobody loses an ACK. */
  lemma FlushAcknowledges(e: Setup, s: System, clock: nat -> u64, i: nat)
    requires Inv(e, s) && !e.noSync && Enabled(e, s, Flush(clock)) && i < |s.memory.buffered|
    ensures var s1, r := Next(e, s, Flush(clock)), s.memory.buffered[i];
            && r.lsn in s1.acked && s1.hist[r.lsn - 1] == r && s1.acked[r.lsn].lsn == r.lsn
            && Stands(e.codec, s1.segs, r, s1.acked[r.lsn])
  {
    hide LogOk, AppendAll, Placed, AcksHold, AtLeastOnce, PassOk, TornStarts, AllEncodable, Stands;
    PlacedStand(e.codec, e.segmentMax, s.segs, s.checkpoint, s.hist, s.memory.buffered, clock);
    StandsSameLsn(e.codec, AppendAll(e.codec, e.segmentMax, s.segs, s.memory.buffered, clock), s.memory.buffered[i],
                  Placed(e.codec, e.segmentMax, s.segs, s.memory.buffered, clock)[i]);
  }

  lemma StandsSameLsn(c: Codec, segs: Log, r: Record, p: Position)
    requires Stands(c, segs, r, p)
    ensures p.lsn == r.lsn
  {
  }

  /** The history only grows, and an acknowledgement is never taken back or changed. */
  lemma NextOnlyAdds(e: Setup, s: System, op: Op)
    requires Inv(e, s)
    ensures s.hist <= Next(e, s, op).hist
    ensures forall lsn :: lsn in s.acked ==> lsn in Next(e, s, op).acked && Next(e, s, op).acked[lsn] == s.acked[lsn]
  {
    hide LogOk, AckHolds, AtLeastOnce, PassOk, TornStarts, AppendAll, Placed, AllEncodable, CrashLayout, Restart;
  }

  // ---- checkpoint stability -------------------------------------------------------------------

  /** The persisted checkpoint never moves back. */
  lemma CheckpointNeverMovesBack(e: Setup, s: System, op: Op)
    requires Inv(e, s)
    ensures LsnOf(s.checkpoint) <= LsnOf(Next(e, s, op).checkpoint)
  {
    hide LogOk, AcksHold, AtLeastOnce, TornStarts, AppendAll, Placed, AllEncodable, CrashLayout, Restart,
         ReadCheckpoint, AllSound, LastWrite, At, Contiguous, Handled;
    if Enabled(e, s, op) && (op.Initialize? || op.BeginPass?) {
      ReadCheckpointFacts(e.codec, s.segs, s.checkpoint, s.hist, op.latest);
    }
    if Enabled(e, s, op) && op.Perform? { NextEffectSound(e, s, s.pass.value); }
  }

  /** The checkpoint's segment holds a record at or below the checkpoint. */
  ghost predicate Anchored(c: Codec, s: System) {
    s.checkpoint.Some? && exists k, i :: i > 0 && Splits(c, s.segs, s.hist, s.checkpoint.value, k, i)
  }

  /** An anchored checkpoint is never reset: reading it gives it back. */
  lemma AnchoredIsStable(e: Setup, s: System, latest: bool)
    requires LogOk(e.codec, s.segs, s.checkpoint, s.hist) && Anchored(e.codec, s)
    ensures ReadCheckpoint(e.codec, s.segs, s.checkpoint, latest) == (s.checkpoint, s.checkpoint)
  {
    hide BeforeFloor, BoundsOf, Tail, Offset, Runs;
    var p := s.checkpoint.value;
    var k, i :| i > 0 && Splits(e.codec, s.segs, s.hist, p, k, i);
    if BeforeFloor(p, BoundsOf(e.codec, s.segs)) {
      BehindAnEmptySegment(e.codec, s.segs, s.hist, p);
      assert false;
    }
  }

  lemma AnchoredByExtension(c: Codec, s: System, s1: System)
    requires Anchored(c, s) && Extends(s.segs, s1.segs) && s.checkpoint == s1.checkpoint && Ordered(s1.segs)
    requires At(c, s1.segs, s1.hist, s.checkpoint.value)
    ensures Anchored(c, s1)
  {
    hide Offset, Tail;
    var p := s.checkpoint.value;
    var k, i :| i > 0 && Splits(c, s.segs, s.hist, p, k, i);
    var k1, i1 := SplitOf(c, s1.segs, s1.hist, p);
    PrefixOffsets(c, s.segs[k].recs, s1.segs[k].recs, i);
    assert Located(c, s1.segs, p, k, i);
    LocatedUnique(c, s1.segs, p, k, i, k1, i1);
  }

  /** A checkpoint that marks an entry is anchored. */
  lemma MarkIsAnchored(e: Setup, s: System, gone: set<nat>)
    requires Enabled(e, s, Perform(gone))
    requires s.pass.value.todo[0].WriteCheckpoint? && s.pass.value.todo[0].outcome != Refused
    requires Inv(e, s)
    ensures Anchored(e.codec, Next(e, s, Perform(gone)))
  {
    hide AllSound, LastWrite, At, Contiguous, Handled, LogOk, AcksHold, AtLeastOnce, TornStarts;
    var s1, run := Next(e, s, Perform(gone)), s.pass.value;
    var p := run.todo[0].position;
    NextEffectSound(e, s, run);
    NextLsnOfEntry(run.entries, run.base, p.lsn - run.base - 1);
    var k, i := SplitOf(e.codec, s.segs, s.hist, p);
    assert i > 0;
  }

  lemma WriterKeepsAnchor(e: Setup, s: System, op: Op)
    requires !op.Initialize? && !op.BeginPass? && !op.Perform?
    requires Enabled(e, s, op) && Anchored(e.codec, s) && Inv(e, s)
    ensures Anchored(e.codec, Do(e, s, op))
  {
    InvParts(e, s);
    hide Inv, AcksHold, AtLeastOnce, PassOk, Anchored, TornStarts, AllEncodable, AppendAll, Placed, CrashLayout,
         Restart, TornFrom, LogOk, Extends, SameRecords, FileLen, ActiveId, NextLsn;
    var s1, c := Do(e, s, op), e.codec;
    match op
    case Append(_) => SameAnchor(c, s, s1);
    case FlushFails => SameAnchor(c, s, s1);
    case Crash => SameAnchor(c, s, s1);
    case Flush(clock) =>
      AppendAllKeepsLog(c, e.segmentMax, s.segs, s.checkpoint, s.hist, s.memory.buffered, clock);
      AnchorGrows(c, s, s1);
    case CrashInFlush(kept, torn, clock, extra) =>
      CrashLayoutKeepsLog(e, s.segs, s.checkpoint, s.hist, s.memory.buffered, kept, torn, clock, extra);
      AnchorGrows(c, s, s1);
    case Start(now) =>
      TornStartsOfLast(c, s.segs, s.checkpoint, s.hist);
      RestartKeepsLog(c, s.segs, s.checkpoint, s.hist, now);
      LogIsOrdered(c, s1.segs, s1.checkpoint, s1.hist);
      SameRecordsExtends(s.segs, s1.segs);
      AnchorGrows(c, s, s1);
    case StartInterrupted =>
      EmptyFile(c, Last(s.segs));
      FrontKeepsLog(c, s.segs, s.checkpoint, s.hist);
      AnchorInFront(c, s, s1);
  }

  lemma ReplayKeepsAnchor(e: Setup, s: System, op: Op)
    requires op.Initialize? || op.BeginPass? || op.Perform?
    requires Enabled(e, s, op) && Anchored(e.codec, s) && Inv(e, s)
    ensures Anchored(e.codec, Do(e, s, op)) && Do(e, s, op).jumped == s.jumped
  {
    InvParts(e, s);
    hide Inv, AcksHold, AtLeastOnce, PassOk, Anchored, TornStarts, ReadCheckpoint, EntriesAfter, Pass, CoveredIds,
         Without, LogOk, MemoryOk, Distinct;
    var s1, c := Do(e, s, op), e.codec;
    if op.Perform? {
      var eff := s.pass.value.todo[0];
      if eff.Cleanup? {
        var all := CleanupRemoves(e, s, op.gone);
        LogIsOrdered(c, s.segs, s.checkpoint, s.hist);
        CoveredBefore(s.segs, s.checkpoint.value.lsn, s.checkpoint.value.segment, all);
        AnchorAfterCleanup(c, s, s1, all);
      } else if eff.WriteCheckpoint? && eff.outcome != Refused {
        MarkIsAnchored(e, s, op.gone);
      } else {
        SameAnchor(c, s, s1);
      }
    } else {
      AnchoredIsStable(e, s, op.latest);
      assert s1.jumped == s.jumped + Between(LsnOf(s.checkpoint), LsnOf(s.checkpoint));
      assert Between(LsnOf(s.checkpoint), LsnOf(s.checkpoint)) == {};
      SameAnchor(c, s, s1);
    }
  }

  /** Once a checkpoint marks a record, no step loses the anchor: from then on nothing is ever jumped over. */
  lemma AnchorHolds(e: Setup, s: System, op: Op)
    requires Inv(e, s) && Anchored(e.codec, s)
    ensures Anchored(e.codec, Next(e, s, op))
    ensures Next(e, s, op).jumped == s.jumped
  {
    hide Inv, Anchored, AppendAll, Placed, AllEncodable, CrashLayout, Restart;
    if Enabled(e, s, op) {
      if op.Initialize? || op.BeginPass? || op.Perform? {
        ReplayKeepsAnchor(e, s, op);
      } else {
        WriterKeepsAnchor(e, s, op);
      }
    }
  }

  /** Checkpoint stability over whole runs: from the first mark on, whatever is appended, lost in crashes, restarted,
      replayed or cleaned up, reading the checkpoint gives it back, it never moves back, and nothing is jumped over. */
  lemma {:induction false} RunsKeepAnchor(e: Setup, s: System, ops: seq<Op>, latest: bool)
    requires Inv(e, s) && Anchored(e.codec, s)
    ensures var out := Run(e, s, ops);
            && Anchored(e.codec, out) && out.jumped == s.jumped
            && LsnOf(s.checkpoint) <= LsnOf(out.checkpoint)
            && ReadCheckpoint(e.codec, out.segs, out.checkpoint, latest) == (out.checkpoint, out.checkpoint)
    decreases |ops|
  {
    hide Inv, Anchored, Next, ReadCheckpoint, LogOk;
    if ops == [] {
      InvParts(e, s);
      AnchoredIsStable(e, s, latest);
    } else {
      NextKeepsInv(e, s, ops[0]);
      AnchorHolds(e, s, ops[0]);
      CheckpointNeverMovesBack(e, s, ops[0]);
      RunsKeepAnchor(e, Next(e, s, ops[0]), ops[1..], latest);
    }
  }

  lemma SameAnchor(c: Codec, s: System, s1: System)
    requires Anchored(c, s) && s.segs == s1.segs && s.checkpoint == s1.checkpoint && s.hist == s1.hist
    ensures Anchored(c, s1)
  {
  }

  lemma AnchorGrows(c: Codec, s: System, s1: System)
    requires Anchored(c, s) && Extends(s.segs, s1.segs) && s.checkpoint == s1.checkpoint
    requires LogOk(c, s1.segs, s1.checkpoint, s1.hist)
    ensures Anchored(c, s1)
  {
    hide At, Runs;
    assert s.checkpoint.Some?;
    AnchoredByExtension(c, s, s1);
  }

  lemma AnchorInFront(c: Codec, s: System, s1: System)
    requires Anchored(c, s) && s.segs != [] && Last(s.segs).recs == [] && s1.segs == Front(s.segs)
    requires s.checkpoint == s1.checkpoint && s1.hist == s.hist && LogOk(c, s1.segs, s1.checkpoint, s1.hist)
    ensures Anchored(c, s1)
  {
    hide Offset, Tail, Runs;
    var p := s.checkpoint.value;
    var k, i :| i > 0 && Splits(c, s.segs, s.hist, p, k, i);
    var k1, i1 := SplitOf(c, s1.segs, s1.hist, p);
    assert Located(c, s1.segs, p, k, i);
    LocatedUnique(c, s1.segs, p, k, i, k1, i1);
  }

  lemma AnchorAfterCleanup(c: Codec, s: System, s1: System, all: set<nat>)
    requires Anchored(c, s) && s1.segs == Without(s.segs, all) && s.checkpoint == s1.checkpoint && s1.hist == s.hist
    requires Ordered(s.segs) && forall id :: id in all ==> id < s.checkpoint.value.segment
    ensures Anchored(c, s1)
  {
    hide Splits, Without, Ordered;
    var p := s.checkpoint.value;
    var k, i :| i > 0 && Splits(c, s.segs, s.hist, p, k, i);
    SplitBounds(c, s.segs, s.hist, p, k, i);
    WithoutKeepsSplit(c, s.segs, all, s.hist, p, k, i);
  }

  // ---- jumps ----------------------------------------------------------------------------------

  /** Reading the checkpoint skips a durable record the checkpoint did not cover. */
  ghost predicate Jumps(c: Codec, s: System, latest: bool) {
    exists r :: r in s.hist && LsnOf(s.checkpoint) < r.lsn <= LsnOf(ReadCheckpoint(c, s.segs, s.checkpoint, latest).1)
  }

  lemma JumpsByBounds(e: Setup, s: System, latest: bool)
    requires Inv(e, s) && s.memory.Up?
    ensures var bounds := BoundsOf(e.codec, s.segs);
            Jumps(e.codec, s, latest)
            <==> latest && bounds.floor.Some?
                 && (s.checkpoint.None? || BeforeFloor(s.checkpoint.value, bounds))
  {
    hide Inv, Runs, At, BeforeFloor, AcksHold, AtLeastOnce, TornStarts, PassOk, EntriesAfter, FileLen;
    InvParts(e, s);
    ReadCheckpointFacts(e.codec, s.segs, s.checkpoint, s.hist, latest);
    FloorIffRecords(e.codec, s.segs);
    MaxLsnOfLog(e.codec, s.segs, s.checkpoint, s.hist);
    var bounds, p := BoundsOf(e.codec, s.segs), ReadCheckpoint(e.codec, s.segs, s.checkpoint, latest).1;
    if s.checkpoint.Some? && BeforeFloor(s.checkpoint.value, bounds) {
      BehindAnEmptySegment(e.codec, s.segs, s.hist, s.checkpoint.value);
      BeforeFloorHasFloor(s.checkpoint.value, bounds);
    }
    if latest && bounds.floor.Some? && (s.checkpoint.None? || BeforeFloor(s.checkpoint.value, bounds)) {
      TailIsTheEnd(e.codec, s.segs, s.checkpoint, s.hist);
      assert p == bounds.tail && LsnOf(p) == |s.hist|;
      assert LsnOf(s.checkpoint) < |s.hist|;
      assert s.hist[|s.hist| - 1] in s.hist;
      assert Jumps(e.codec, s, latest);
    }
  }

  /** Exactly when records are skipped: the reset policy is `Latest`, some segment in the directory holds a record, and
      there is no checkpoint file or all of these segments come after the checkpoint's. */
  lemma JumpsExactlyWhen(e: Setup, s: System, latest: bool)
    requires Inv(e, s) && s.memory.Up?
    ensures Jumps(e.codec, s, latest)
       <==> && latest && (exists k :: 0 <= k < |s.segs| && s.segs[k].recs != [])
            && (s.checkpoint.Some? ==>
                  forall k :: 0 <= k < |s.segs| && s.segs[k].recs != [] ==> s.checkpoint.value.segment < s.segs[k].id)
  {
    hide Inv, LogOk, AcksHold, AtLeastOnce, TornStarts, PassOk, BeforeFloor, BoundsOf, Jumps;
    InvParts(e, s);
    JumpsByBounds(e, s, latest);
    FloorInSegments(e.codec, s.segs, s.checkpoint, s.hist);
  }

  /** The floor and the positions before it, in terms of the segments that hold records. */
  lemma FloorInSegments(c: Codec, segs: Log, checkpoint: Option<Position>, hist: seq<Record>)
    requires LogOk(c, segs, checkpoint, hist)
    ensures BoundsOf(c, segs).floor.Some? <==> exists k :: 0 <= k < |segs| && segs[k].recs != []
    ensures checkpoint.Some? && BoundsOf(c, segs).floor.Some? ==>
              (BeforeFloor(checkpoint.value, BoundsOf(c, segs)) <==>
               forall k :: 0 <= k < |segs| && segs[k].recs != [] ==> checkpoint.value.segment < segs[k].id)
  {
    hide EntriesAfter, FileLen, Flat, At, Runs;
    FloorIffRecords(c, segs);
    RecordsOfAll(c, segs);
    forall k | 0 <= k < |segs| && segs[k].recs != [] ensures Flat(segs) != [] { FlatSplit(segs, k); }
    if EntriesAfter(c, segs, None) != [] {
      var k, i := NthOfAll(c, segs, 0);
      assert segs[k].recs != [];
    }
    if checkpoint.Some? && BeforeFloor(checkpoint.value, BoundsOf(c, segs)) {
      BehindAnEmptySegment(c, segs, hist, checkpoint.value);
    }
  }

  lemma BeforeFloorHasFloor(p: Position, bounds: Bounds)
    requires BeforeFloor(p, bounds)
    ensures bounds.floor.Some?
  {
  }

  lemma FloorIffRecords(c: Codec, segs: Log)
    ensures BoundsOf(c, segs).floor.Some? <==> Flat(segs) != []
  {
    hide EntriesAfter, FileLen, Flat;
    RecordsOfAll(c, segs);
  }
}
