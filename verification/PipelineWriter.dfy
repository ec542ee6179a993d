/** The steps of the writer, crashes and start-up keep the pipeline's invariant. */
module PipelineWriter {
  import opened Bytes
  import opened Wrappers
  import opened FrameCodec
  import opened SegmentCodec
  import opened SegmentFile
  import opened SegmentLog
  import opened WalSpec
  import opened WalFiles
  import opened LogInvariant
  import opened ReplayPlan
  import opened ReplayExact
  import opened Pipeline

  /** b is a with records added to its segments and segments with new, higher ids added behind them. */
  ghost predicate Extends(a: Log, b: Log) {
    && |a| <= |b|
    && (forall k :: 0 <= k < |a| ==> a[k].id == b[k].id && a[k].recs <= b[k].recs)
    && (forall j, k :: 0 <= j < |a| && |a| <= k < |b| ==> a[j].id < b[k].id)
  }

  lemma ExtendsTwice(a: Log, b: Log, d: Log)
    requires Extends(a, b) && Extends(b, d)
    ensures Extends(a, d)
  {
    forall k | 0 <= k < |a| ensures a[k].id == d[k].id && a[k].recs <= d[k].recs {}
    forall j, k | 0 <= j < |a| && |a| <= k < |d| ensures a[j].id < d[k].id {
      if k < |b| { assert b[k].id == d[k].id; } else { assert a[j].id == b[j].id; }
    }
  }

  lemma AppendExtends(c: Codec, segmentMax: nat, segs: Log, r: Record, now: nat)
    requires segs != [] && Ordered(segs)
    ensures Extends(segs, AppendRecord(c, segmentMax, segs, r, now))
            && Ordered(AppendRecord(c, segmentMax, segs, r, now))
  {
    hide Rotates;
    var out := AppendRecord(c, segmentMax, segs, r, now);
    forall k | 0 <= k < |segs| ensures segs[k].id == out[k].id && segs[k].recs <= out[k].recs {}
    forall j, k | 0 <= j < |segs| && |segs| <= k < |out| ensures segs[j].id < out[k].id {
      assert segs[j].id <= Last(segs).id;
    }
  }

  lemma SameRecordsExtends(a: Log, b: Log)
    requires SameRecords(a, b) && Ordered(b)
    ensures Extends(a, b)
  {
    forall j, k | 0 <= j < |a| && |a| <= k < |b| ensures a[j].id < b[k].id {
      assert a[j].id == b[j].id;
    }
  }

  lemma {:induction false} PrefixOffsets(c: Codec, a: seq<Record>, b: seq<Record>, n: nat)
    requires a <= b && n <= |a|
    ensures Offset(c, a, n) == Offset(c, b, n)
  {
    hide FrameLen;
    if n > 0 { PrefixOffsets(c, a, b, n - 1); }
  }

  lemma ExtendsKeepsAck(c: Codec, a: Log, b: Log, checkpoint: Option<Position>, r: Record, p: Position)
    requires Extends(a, b) && AckHolds(c, a, checkpoint, r, p)
    requires checkpoint.Some? ==> a != [] && checkpoint.value.segment <= Last(a).id
    ensures AckHolds(c, b, checkpoint, r, p)
  {
    hide Offset;
    if Stands(c, a, r, p) {
      var k, j :| 0 <= k < |a| && 0 <= j < |a[k].recs| && a[k].recs[j] == r
                  && p == Position(r.lsn, a[k].id, Offset(c, a[k].recs, j));
      PrefixOffsets(c, a[k].recs, b[k].recs, j);
      StandsAt(c, b, r, p, k, j);
    } else {
      forall k | 0 <= k < |b| ensures b[k].id != p.segment {
        if k < |a| { assert a[k].id == b[k].id; } else { assert Last(a).id < b[k].id; }
      }
    }
  }

  // ---- a whole flush --------------------------------------------------------------------------

  /** The buffered records carry on where the history ends. */
  ghost predicate FollowOn(hist: seq<Record>, recs: seq<Record>) {
    forall i :: 0 <= i < |recs| ==> recs[i].lsn == |hist| + 1 + i
  }

  lemma {:induction false} AppendAllKeepsLog(c: Codec, segmentMax: nat, segs: Log, checkpoint: Option<Position>,
                                             hist: seq<Record>, recs: seq<Record>, clock: nat -> u64)
    requires LogOk(c, segs, checkpoint, hist) && Appendable(segs, |hist| + 1)
    requires FollowOn(hist, recs) && AllEncodable(c, recs)
    ensures var out := AppendAll(c, segmentMax, segs, recs, clock);
            && LogOk(c, out, checkpoint, hist + recs) && Appendable(out, |hist| + |recs| + 1)
            && Extends(segs, out)
            && (TornStarts(segs, checkpoint, hist) ==> TornStarts(out, checkpoint, hist + recs))
    decreases |recs|
  {
    hide LogOk, Encodable, AppendRecord;
    if recs == [] {
      assert hist + recs == hist;
    } else {
      var front, r := recs[..|recs| - 1], recs[|recs| - 1];
      AppendAllKeepsLog(c, segmentMax, segs, checkpoint, hist, front, clock);
      var before := AppendAll(c, segmentMax, segs, front, clock);
      AppendKeepsLog(c, before, checkpoint, hist + front, r, segmentMax, clock(r.lsn));
      LogIsOrdered(c, before, checkpoint, hist + front);
      AppendExtends(c, segmentMax, before, r, clock(r.lsn));
      RecordsAtTheEnd(AppendRecord(c, segmentMax, before, r, clock(r.lsn)), checkpoint, hist + recs);
      ExtendsTwice(segs, before, AppendRecord(c, segmentMax, before, r, clock(r.lsn)));
      assert hist + recs == (hist + front) + [r];
    }
  }

  lemma {:induction false} AppendAllKeepsAt(c: Codec, segmentMax: nat, segs: Log, hist: seq<Record>, recs: seq<Record>,
                                            clock: nat -> u64, p: Position)
    requires segs != [] && At(c, segs, hist, p)
    ensures At(c, AppendAll(c, segmentMax, segs, recs, clock), hist + recs, p)
    decreases |recs|
  {
    hide At, AppendRecord;
    if recs == [] {
      assert hist + recs == hist;
    } else {
      var front, r := recs[..|recs| - 1], recs[|recs| - 1];
      AppendAllKeepsAt(c, segmentMax, segs, hist, front, clock, p);
      AppendKeepsAt(c, AppendAll(c, segmentMax, segs, front, clock), hist + front, p, r, segmentMax, clock(r.lsn));
      assert hist + recs == (hist + front) + [r];
    }
  }

  /** After a flush every record stands where `Placed` says. */
  lemma {:induction false} PlacedStand(c: Codec, segmentMax: nat, segs: Log, checkpoint: Option<Position>,
                                       hist: seq<Record>, recs: seq<Record>, clock: nat -> u64)
    requires LogOk(c, segs, checkpoint, hist) && Appendable(segs, |hist| + 1)
    requires FollowOn(hist, recs) && AllEncodable(c, recs)
    ensures var out, placed := AppendAll(c, segmentMax, segs, recs, clock), Placed(c, segmentMax, segs, recs, clock);
            forall i :: 0 <= i < |recs| ==> Stands(c, out, recs[i], placed[i])
    decreases |recs|
  {
    hide LogOk, Encodable, AppendRecord, Stands;
    if recs != [] {
      var front, r := recs[..|recs| - 1], recs[|recs| - 1];
      PlacedStand(c, segmentMax, segs, checkpoint, hist, front, clock);
      AppendAllKeepsLog(c, segmentMax, segs, checkpoint, hist, front, clock);
      var before, now := AppendAll(c, segmentMax, segs, front, clock), clock(r.lsn);
      AppendRecordShape(c, before, r, segmentMax, now);
      forall i | 0 <= i < |front|
        ensures Stands(c, AppendRecord(c, segmentMax, before, r, now), recs[i],
                       Placed(c, segmentMax, segs, front, clock)[i])
      {
        AppendKeepsStanding(c, before, r, segmentMax, now, front[i], Placed(c, segmentMax, segs, front, clock)[i]);
      }
    }
  }

  // ---- what a growing log leaves alone --------------------------------------------------------

  lemma GrowthKeepsAcks(e: Setup, s: System, segs: Log, hist: seq<Record>)
    requires AcksHold(e, s) && Extends(s.segs, segs) && s.hist <= hist
    requires LogOk(e.codec, s.segs, s.checkpoint, s.hist)
    ensures forall lsn :: lsn in s.acked ==>
              1 <= lsn <= |hist| && AckHolds(e.codec, segs, s.checkpoint, hist[lsn - 1], s.acked[lsn])
  {
    hide AckHolds, Extends;
    if s.checkpoint.Some? { CheckpointSegmentExists(e.codec, s.segs, s.checkpoint, s.hist); }
    forall lsn | lsn in s.acked
      ensures 1 <= lsn <= |hist| && AckHolds(e.codec, segs, s.checkpoint, hist[lsn - 1], s.acked[lsn])
    {
      ExtendsKeepsAck(e.codec, s.segs, segs, s.checkpoint, s.hist[lsn - 1], s.acked[lsn]);
    }
  }

  lemma GrowthKeepsDelivered(s: System, s1: System)
    requires AtLeastOnce(s) && s.hist <= s1.hist && LsnOf(s.checkpoint) <= |s.hist|
    requires s1.checkpoint == s.checkpoint && s1.jumped == s.jumped && s1.marks == s.marks && s1.log == s.log
    ensures AtLeastOnce(s1)
  {
    hide MarkHolds;
  }

  // ---- the steps ------------------------------------------------------------------------------

  lemma AppendKeepsInv(e: Setup, s: System, record: Record)
    requires Inv(e, s) && s.memory.Up?
    ensures Inv(e, Do(e, s, Append(record)))
  {
    hide LogOk, MarkHolds, AckHolds, AllSound, At, LastWrite, TornStarts;
  }

  lemma FlushKeepsInv(e: Setup, s: System, clock: nat -> u64)
    requires Inv(e, s) && Enabled(e, s, Flush(clock))
    ensures Inv(e, Do(e, s, Flush(clock)))
  {
    hide LogOk, AckHolds, AllSound, At, AtLeastOnce, LastWrite, AppendAll, Placed, Stands, Encodable, Contiguous;
    var s1, recs, c := Do(e, s, Flush(clock)), s.memory.buffered, e.codec;
    AppendAllKeepsLog(c, e.segmentMax, s.segs, s.checkpoint, s.hist, recs, clock);
    PlacedStand(c, e.segmentMax, s.segs, s.checkpoint, s.hist, recs, clock);
    GrowthKeepsAcks(e, s, s1.segs, s1.hist);
    MaxLsnOfLog(c, s.segs, s.checkpoint, s.hist);
    GrowthKeepsDelivered(s, s1);
    FlushedAcks(e, s, clock);
    if s.pass.Some? { FlushKeepsPass(e, s, s.pass.value, clock); }
  }

  lemma FlushedAcks(e: Setup, s: System, clock: nat -> u64)
    requires Enabled(e, s, Flush(clock)) && FollowOn(s.hist, s.memory.buffered)
    requires var recs := s.memory.buffered;
             forall i :: 0 <= i < |recs| ==>
               Stands(e.codec, AppendAll(e.codec, e.segmentMax, s.segs, recs, clock), recs[i],
                      Placed(e.codec, e.segmentMax, s.segs, recs, clock)[i])
    requires forall lsn :: lsn in s.acked ==>
               1 <= lsn <= |s.hist + s.memory.buffered|
               && AckHolds(e.codec, AppendAll(e.codec, e.segmentMax, s.segs, s.memory.buffered, clock), s.checkpoint,
                           (s.hist + s.memory.buffered)[lsn - 1], s.acked[lsn])
    ensures AcksHold(e, Do(e, s, Flush(clock)))
  {
    hide AppendAll, Placed, Stands, Encodable;
  }

  lemma FlushKeepsPass(e: Setup, s: System, run: PassRun, clock: nat -> u64)
    requires PassOk(e, s, run) && Enabled(e, s, Flush(clock))
    ensures PassOk(e, Do(e, s, Flush(clock)), run)
  {
    hide AllSound, At, LastWrite, AppendAll, Placed, Encodable, Contiguous;
    var s1, recs := Do(e, s, Flush(clock)), s.memory.buffered;
    forall n | 0 <= n < |run.entries| && LsnOf(s.checkpoint) < run.base + n + 1
      ensures At(e.codec, s1.segs, s1.hist, run.entries[n].nextPosition)
    {
      AppendAllKeepsAt(e.codec, e.segmentMax, s.segs, s.hist, recs, clock, run.entries[n].nextPosition);
    }
  }

  lemma FlushFailsKeepsInv(e: Setup, s: System)
    requires Inv(e, s) && s.memory.Up?
    ensures Inv(e, Do(e, s, FlushFails))
  {
    hide LogOk, MarkHolds, AckHolds, AllSound, At, LastWrite, TornStarts;
  }

  // ---- crashes --------------------------------------------------------------------------------

  lemma {:induction false} WithEmptyKeepsLog(c: Codec, segs: Log, checkpoint: Option<Position>, hist: seq<Record>,
                                             extra: seq<(nat, nat)>)
    requires LogOk(c, segs, checkpoint, hist) && segs != [] && TornStarts(segs, checkpoint, hist)
    ensures var out := WithEmpty(segs, extra);
            LogOk(c, out, checkpoint, hist) && Extends(segs, out) && TornStarts(out, checkpoint, hist)
    decreases |extra|
  {
    hide HoldsRun, Complete;
    if extra != [] {
      var seg := NewSegment(Last(segs).id + 1, extra[0].0, extra[0].1);
      var more := segs + [seg];
      NewRun(c, seg.id, seg.createdAt, seg.start, hist);
      assert Ordered(more) by {
        forall k | 0 <= k < |segs| ensures segs[k].id < seg.id { assert segs[k].id <= Last(segs).id; }
      }
      assert SameRecords(segs, more);
      SameComplete(c, segs, more, checkpoint, hist);
      TornStartsKept(segs, more, checkpoint, hist);
      forall k | 0 <= k < |more| ensures HoldsRun(c, more[k], hist) {
        if k < |segs| { assert more[k] == segs[k]; }
      }
      WithEmptyKeepsLog(c, more, checkpoint, hist, extra[1..]);
      SameRecordsExtends(segs, more);
      ExtendsTwice(segs, more, WithEmpty(more, extra[1..]));
    }
  }

  lemma WithTornKeepsLog(c: Codec, segmentMax: nat, segs: Log, checkpoint: Option<Position>, hist: seq<Record>,
                         r: Record, now: nat, torn: seq<byte>)
    requires LogOk(c, segs, checkpoint, hist) && Appendable(segs, |hist| + 1) && r.lsn == |hist| + 1 && Torn(c, torn)
    requires TornStarts(segs, checkpoint, hist)
    ensures var out := WithTorn(c, segmentMax, segs, r, now, torn);
            LogOk(c, out, checkpoint, hist) && Extends(segs, out) && TornStarts(out, checkpoint, hist)
  {
    hide Complete, Torn, Encodable, Rotates;
    var out := WithTorn(c, segmentMax, segs, r, now, torn);
    assert SameRecords(segs, out);
    SameComplete(c, segs, out, checkpoint, hist);
    assert Ordered(out) by { forall k | 0 <= k < |segs| ensures segs[k].id <= Last(segs).id {} }
    SameRecordsExtends(segs, out);
    TornStartsKept(segs, out, checkpoint, hist);
    forall k | 0 <= k < |out| ensures HoldsRun(c, out[k], hist) {
      if k < |segs| { assert HoldsRun(c, segs[k], hist); }
    }
  }

  lemma CrashLayoutKeepsLog(e: Setup, segs: Log, checkpoint: Option<Position>, hist: seq<Record>, buffered: seq<Record>,
                            kept: nat, torn: seq<byte>, clock: nat -> u64, extra: seq<(nat, nat)>)
    requires LogOk(e.codec, segs, checkpoint, hist) && TornStarts(segs, checkpoint, hist)
             && Appendable(segs, |hist| + 1)
    requires FollowOn(hist, buffered) && kept <= |buffered|
    requires AllEncodable(e.codec, buffered[..kept]) && TornFrom(e.codec, buffered, kept, torn)
    ensures var out, more := CrashLayout(e, segs, buffered, kept, torn, clock, extra), hist + buffered[..kept];
            LogOk(e.codec, out, checkpoint, more) && TornStarts(out, checkpoint, more) && Extends(segs, out)
  {
    hide LogOk, AppendAll, Encodable, WithTorn, WithEmpty, Extends, Frame, FrameLen, TornStarts;
    var c, recs := e.codec, buffered[..kept];
    var more := hist + recs;
    AppendAllKeepsLog(c, e.segmentMax, segs, checkpoint, hist, recs, clock);
    var whole := AppendAll(c, e.segmentMax, segs, recs, clock);
    if torn == [] {
      WithEmptyKeepsLog(c, whole, checkpoint, more, extra);
      ExtendsTwice(segs, whole, WithEmpty(whole, extra));
    } else {
      var r := buffered[kept];
      assert Torn(c, torn);
      WithTornKeepsLog(c, e.segmentMax, whole, checkpoint, more, r, clock(r.lsn), torn);
      var broken := WithTorn(c, e.segmentMax, whole, r, clock(r.lsn), torn);
      WithEmptyKeepsLog(c, broken, checkpoint, more, extra);
      ExtendsTwice(segs, whole, broken);
      ExtendsTwice(segs, broken, WithEmpty(broken, extra));
    }
  }

  lemma CrashInFlushKeepsInv(e: Setup, s: System, kept: nat, torn: seq<byte>, clock: nat -> u64, extra: seq<(nat, nat)>)
    requires Inv(e, s) && Enabled(e, s, CrashInFlush(kept, torn, clock, extra))
    ensures Inv(e, Do(e, s, CrashInFlush(kept, torn, clock, extra)))
  {
    hide LogOk, AckHolds, AtLeastOnce, CrashLayout, AllEncodable, Extends, TornFrom, TornStarts, PassOk;
    var s1 := Do(e, s, CrashInFlush(kept, torn, clock, extra));
    CrashLayoutKeepsLog(e, s.segs, s.checkpoint, s.hist, s.memory.buffered, kept, torn, clock, extra);
    GrowthKeepsAcks(e, s, s1.segs, s1.hist);
    MaxLsnOfLog(e.codec, s.segs, s.checkpoint, s.hist);
    GrowthKeepsDelivered(s, s1);
  }

  lemma CrashKeepsInv(e: Setup, s: System)
    requires Inv(e, s)
    ensures Inv(e, Do(e, s, Crash))
  {
    hide LogOk, MarkHolds, AckHolds, TornStarts;
  }

  lemma StartKeepsInv(e: Setup, s: System, now: nat)
    requires Inv(e, s) && s.memory.Down?
    ensures Inv(e, Do(e, s, Start(now)))
  {
    hide LogOk, AtLeastOnce, AckHolds, Extends, Restart, SameRecords, TornStarts, PassOk;
    var s1 := Do(e, s, Start(now));
    TornStartsOfLast(e.codec, s.segs, s.checkpoint, s.hist);
    RestartKeepsLog(e.codec, s.segs, s.checkpoint, s.hist, now);
    RestartedTorn(e.codec, s.segs, s.checkpoint, s.hist, now);
    LogIsOrdered(e.codec, s1.segs, s1.checkpoint, s1.hist);
    SameRecordsExtends(s.segs, s1.segs);
    GrowthKeepsAcks(e, s, s1.segs, s1.hist);
    MaxLsnOfLog(e.codec, s.segs, s.checkpoint, s.hist);
    GrowthKeepsDelivered(s, s1);
  }

  lemma RestartedTorn(c: Codec, segs: Log, checkpoint: Option<Position>, hist: seq<Record>, now: nat)
    requires TornStarts(segs, checkpoint, hist) && SameRecords(segs, Restart(c, segs, checkpoint, now))
    ensures TornStarts(Restart(c, segs, checkpoint, now), checkpoint, hist)
  {
    hide TornStarts, SameRecords;
    TornStartsKept(segs, Restart(c, segs, checkpoint, now), checkpoint, hist);
  }

  /** A start-up that dies after deleting the stale empty segment, before creating it anew. */
  lemma StartInterruptedKeepsInv(e: Setup, s: System)
    requires Inv(e, s) && Enabled(e, s, StartInterrupted)
    ensures Inv(e, Do(e, s, StartInterrupted))
  {
    hide AtLeastOnce, LogOk, TornStarts, AckHolds, Offset, ActiveId, FileLen;
    var s1, c := Do(e, s, StartInterrupted), e.codec;
    EmptyFile(c, Last(s.segs));
    FrontKeepsLog(c, s.segs, s.checkpoint, s.hist);
    forall lsn | lsn in s.acked
      ensures AckHolds(c, s1.segs, s.checkpoint, s.hist[lsn - 1], s.acked[lsn])
    {
      FrontKeepsAck(c, s.segs, s.checkpoint, s.hist[lsn - 1], s.acked[lsn]);
    }
    MaxLsnOfLog(c, s.segs, s.checkpoint, s.hist);
    GrowthKeepsDelivered(s, s1);
    TornStartsFront(s.segs, s.checkpoint, s.hist);
  }

  lemma FrontKeepsLog(c: Codec, segs: Log, checkpoint: Option<Position>, hist: seq<Record>)
    requires LogOk(c, segs, checkpoint, hist) && segs != [] && Last(segs).recs == []
    requires Last(segs).id == ActiveId(segs, checkpoint)
    ensures LogOk(c, Front(segs), checkpoint, hist)
  {
    hide Offset, HoldsRun, At;
    FrontRecords(segs);
    if checkpoint.Some? { DropEmptyLast(c, segs, hist, checkpoint.value); }
  }

  lemma EmptyFile(c: Codec, seg: Segment)
    requires FileLen(c, seg) == SEGMENT_HEADER_LEN
    ensures seg.recs == [] && seg.torn == []
  {
    OffsetsGrow(c, seg.recs, 0, |seg.recs|);
  }

  lemma FrontRecords(segs: Log)
    requires segs != [] && Last(segs).recs == []
    ensures Flat(Front(segs)) == Flat(segs)
  {
    FlatLast(segs);
  }

  lemma FrontKeepsAck(c: Codec, segs: Log, checkpoint: Option<Position>, r: Record, p: Position)
    requires segs != [] && Last(segs).recs == [] && AckHolds(c, segs, checkpoint, r, p)
    ensures AckHolds(c, Front(segs), checkpoint, r, p)
  {
    hide Offset;
    if Stands(c, segs, r, p) {
      var k, j :| 0 <= k < |segs| && 0 <= j < |segs[k].recs| && segs[k].recs[j] == r
                  && p == Position(r.lsn, segs[k].id, Offset(c, segs[k].recs, j));
      StandsAt(c, Front(segs), r, p, k, j);
    }
  }
}
