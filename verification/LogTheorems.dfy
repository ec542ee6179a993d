/** Cleanup, whole-log contiguity, the size of segments, and paged reading. */
module LogTheorems {
  import opened Bytes
  import opened Wrappers
  import opened FrameCodec
  import opened SegmentCodec
  import opened SegmentFile
  import opened SegmentLog
  import opened WalSpec
  import opened LogReader
  import opened WalFiles
  import opened LogInvariant
  import opened ReplayPlan
  import opened Replay
  import opened ReplayExact
  import opened ReplayTheorems
  import opened Pipeline
  import opened PipelineWriter
  import opened PipelineReplay
  import opened PipelineTheorems

  // ---- cleanup is invisible ---------------------------------------------------------------------

  /** Removing any of the segments a checkpoint covers changes neither what replay reads next, nor the LSN and segment
      id that recovery would choose; no record above the checkpoint goes. */
  lemma CleanupIsInvisible(c: Codec, segs: Log, p: Position, hist: seq<Record>, gone: set<nat>)
    requires LogOk(c, segs, Some(p), hist) && gone <= CoveredIds(segs, p.lsn, p.segment)
    ensures var out := Without(segs, gone);
            && EntriesAfter(c, out, Some(p)) == EntriesAfter(c, segs, Some(p))
            && NextLsn(out, Some(p)) == NextLsn(segs, Some(p))
            && ActiveId(out, Some(p)) == ActiveId(segs, Some(p))
            && forall k, j :: 0 <= k < |segs| && segs[k].id in gone && 0 <= j < |segs[k].recs| ==>
                 segs[k].recs[j].lsn <= p.lsn
  {
    hide EntriesAfter, Runs, At, CoveredIds, NextLsn, Without, MaxLsn;
    LogIsOrdered(c, segs, Some(p), hist);
    CoveredBefore(segs, p.lsn, p.segment, gone);
    WithoutKeepsLog(c, segs, Some(p), hist, gone);
    RecoveredLsn(c, segs, Some(p), hist);
    RecoveredLsn(c, Without(segs, gone), Some(p), hist);
    SameRead(c, segs, p, hist, gone);
    forall k, j | 0 <= k < |segs| && segs[k].id in gone && 0 <= j < |segs[k].recs|
      ensures segs[k].recs[j].lsn <= p.lsn
    {
      MaxLsnBounds(segs[k].recs);
    }
  }

  lemma SameRead(c: Codec, segs: Log, p: Position, hist: seq<Record>, gone: set<nat>)
    requires Ordered(segs) && At(c, segs, hist, p) && forall id :: id in gone ==> id < p.segment
    ensures EntriesAfter(c, Without(segs, gone), Some(p)) == EntriesAfter(c, segs, Some(p))
  {
    hide EntriesAfter, Tail, Offset, WholeSegment;
    var k, i := SplitOf(c, segs, hist, p);
    WithoutSplits(segs, gone, k);
    WithoutMembers(segs, gone);
    var out, n := Without(segs, gone), |Without(segs[..k], gone)|;
    assert out[n] == segs[k] && out[n + 1..] == segs[k + 1..];
    EntriesAfterLocated(c, segs, p, k, i);
    EntriesAfterLocated(c, out, p, n, i);
  }

  // ---- the whole directory ----------------------------------------------------------------------

  /** The directory holds the end of the history, without a hole. */
  ghost predicate Suffix(segs: Log, hist: seq<Record>) {
    |Flat(segs)| <= |hist| && Flat(segs) == hist[|hist| - |Flat(segs)|..]
  }

  ghost predicate CleanupsFinished(log: Trace) {
    forall i :: 0 <= i < |log| && log[i].Cleanup? ==> log[i].outcome == Done
  }

  ghost predicate Tidy(s: System) {
    CleanupsFinished(s.log) ==> Suffix(s.segs, s.hist)
  }

  lemma {:induction false} FlatOfAppendAll(c: Codec, segmentMax: nat, segs: Log, recs: seq<Record>, clock: nat -> u64)
    requires segs != [] && Last(segs).torn == []
    ensures var out := AppendAll(c, segmentMax, segs, recs, clock);
            Flat(out) == Flat(segs) + recs && Last(out).torn == []
    decreases |recs|
  {
    hide Flat, AppendRecord;
    if recs == [] {
      assert Flat(segs) + recs == Flat(segs);
    } else {
      var front, r := recs[..|recs| - 1], recs[|recs| - 1];
      FlatOfAppendAll(c, segmentMax, segs, front, clock);
      AppendRecordShape(c, AppendAll(c, segmentMax, segs, front, clock), r, segmentMax, clock(r.lsn));
      Assoc(Flat(segs), front, [r]);
      assert front + [r] == recs;
    }
  }

  lemma {:induction false} WithEmptySame(segs: Log, extra: seq<(nat, nat)>)
    requires segs != []
    ensures SameRecords(segs, WithEmpty(segs, extra))
    decreases |extra|
  {
    if extra != [] {
      WithEmptySame(segs + [NewSegment(Last(segs).id + 1, extra[0].0, extra[0].1)], extra[1..]);
    }
  }

  lemma FlatOfCrash(e: Setup, segs: Log, buffered: seq<Record>, kept: nat, torn: seq<byte>, clock: nat -> u64,
                    extra: seq<(nat, nat)>)
    requires segs != [] && Last(segs).torn == [] && kept <= |buffered| && (torn != [] ==> kept < |buffered|)
    ensures Flat(CrashLayout(e, segs, buffered, kept, torn, clock, extra)) == Flat(segs) + buffered[..kept]
  {
    hide AppendAll, Rotates;
    var whole := AppendAll(e.codec, e.segmentMax, segs, buffered[..kept], clock);
    FlatOfAppendAll(e.codec, e.segmentMax, segs, buffered[..kept], clock);
    var broken := if torn == [] then whole
                  else WithTorn(e.codec, e.segmentMax, whole, buffered[kept], clock(buffered[kept].lsn), torn);
    assert SameRecords(whole, broken);
    SameFlat(whole, broken);
    WithEmptySame(broken, extra);
    SameFlat(broken, WithEmpty(broken, extra));
  }

  /** A finished cleanup leaves exactly the checkpoint's segment and the ones behind it. */
  lemma FinishedCleanup(c: Codec, segs: Log, p: Position, hist: seq<Record>)
    requires LogOk(c, segs, Some(p), hist) && Suffix(segs, hist)
    ensures Suffix(Uncovered(segs, p.lsn, p.segment), hist)
  {
    hide Runs, Offset, Flat, MaxLsn, Without;
    var k, i := SplitOf(c, segs, hist, p);
    var gone := CoveredIds(segs, p.lsn, p.segment);
    forall j | 0 <= j < k ensures segs[j].id in gone {
      MaxLsnBounds(segs[j].recs);
      EarlierRecords(segs, p, hist, k, i, j);
      assert Covered(segs[j], p.lsn, p.segment) by { NoneAbove(segs[j].recs, p.lsn); }
    }
    forall j | k <= j < |segs| ensures segs[j].id !in gone {}
    WithoutSplits(segs, gone, k);
    WithoutAll(segs[..k], gone);
    assert [] + segs[k..] == segs[k..];
    SuffixOfSuffix(segs, hist, k);
  }

  lemma {:induction false} WithoutAll(segs: Log, gone: set<nat>)
    requires forall j :: 0 <= j < |segs| ==> segs[j].id in gone
    ensures Without(segs, gone) == []
  {
    if segs != [] { WithoutAll(segs[1..], gone); }
  }

  lemma NoneAbove(recs: seq<Record>, lsn: nat)
    requires forall m :: 0 <= m < |recs| ==> recs[m].lsn <= lsn
    ensures MaxLsn(recs) <= lsn
  {
    MaxLsnBounds(recs);
  }

  lemma SuffixOfSuffix(segs: Log, hist: seq<Record>, k: nat)
    requires k <= |segs| && Suffix(segs, hist)
    ensures Suffix(segs[k..], hist)
  {
    hide Flat;
    FlatConcat(segs[..k], segs[k..]);
    assert segs == segs[..k] + segs[k..];
    var d, n := |hist| - |Flat(segs)|, |Flat(segs[..k])|;
    assert hist[d..][n..] == hist[d + n..];
  }

  /** Records of the segments in front of a position carry LSNs up to the position's. */
  lemma EarlierRecords(segs: Log, p: Position, hist: seq<Record>, k: nat, i: nat, j: nat)
    requires Numbered(hist) && Suffix(segs, hist) && j < k < |segs| && i <= |segs[k].recs|
    requires p.lsn <= |hist| && Tail(segs, k, i) == hist[p.lsn..]
    ensures forall m :: 0 <= m < |segs[j].recs| ==> segs[j].recs[m].lsn <= p.lsn
  {
    hide Flat;
    FlatSplit(segs, j);
    FlatConcat(segs[j + 1..k], segs[k..]);
    assert segs[j + 1..] == segs[j + 1..k] + segs[k..];
    TailIsSuffix(segs, k, i);
    var d := |hist| - |Flat(segs)|;
    var before := |Flat(segs[..j])|;
    forall m | 0 <= m < |segs[j].recs| ensures segs[j].recs[m].lsn <= p.lsn {
      assert Flat(segs)[before + m] == segs[j].recs[m];
      assert Flat(segs)[before + m] == hist[d + before + m];
    }
  }

  lemma SuffixGrows(segs: Log, out: Log, hist: seq<Record>, more: seq<Record>)
    requires Suffix(segs, hist) && Flat(out) == Flat(segs) + more
    ensures Suffix(out, hist + more)
  {
    var d := |hist| - |Flat(segs)|;
    DropFront(hist, more, d);
  }

  lemma NextKeepsTidy(e: Setup, s: System, op: Op)
    requires Inv(e, s) && Tidy(s)
    ensures Tidy(Next(e, s, op))
  {
    if Enabled(e, s, op) {
      InvParts(e, s);
      hide Inv, LogOk, AcksHold, AtLeastOnce, PassOk, TornStarts, AllEncodable, AppendAll, Placed, CrashLayout, Restart,
           ReadCheckpoint, EntriesAfter, TornFrom, CoveredIds, Without, Suffix, SameRecords, FileLen, ActiveId, NextLsn;
      var s1, c := Next(e, s, op), e.codec;
      match op
      case Flush(clock) =>
        FlatOfAppendAll(c, e.segmentMax, s.segs, s.memory.buffered, clock);
        if Suffix(s.segs, s.hist) { SuffixGrows(s.segs, s1.segs, s.hist, s.memory.buffered); }
      case CrashInFlush(kept, torn, clock, extra) =>
        FlatOfCrash(e, s.segs, s.memory.buffered, kept, torn, clock, extra);
        if Suffix(s.segs, s.hist) { SuffixGrows(s.segs, s1.segs, s.hist, s.memory.buffered[..kept]); }
      case Start(now) =>
        TornStartsOfLast(c, s.segs, s.checkpoint, s.hist);
        RestartKeepsLog(c, s.segs, s.checkpoint, s.hist, now);
        SameFlat(s.segs, s1.segs);
        SameSuffix(s.segs, s1.segs, s.hist);
      case StartInterrupted =>
        EmptyFile(c, Last(s.segs));
        FrontRecords(s.segs);
        SameSuffix(s.segs, s1.segs, s.hist);
      case Perform(gone) =>
        var eff := s.pass.value.todo[0];
        FinishedGrows(s.log, eff);
        if eff.Cleanup? && eff.outcome == Done {
          CleanupIsOfCheckpoint(e, s, gone);
          if Suffix(s.segs, s.hist) { FinishedCleanup(c, s.segs, s.checkpoint.value, s.hist); }
        }
      case _ =>
    }
  }

  lemma SameSuffix(a: Log, b: Log, hist: seq<Record>)
    requires Flat(a) == Flat(b)
    ensures Suffix(a, hist) == Suffix(b, hist)
  {
  }

  lemma FinishedGrows(log: Trace, eff: Effect)
    ensures CleanupsFinished(log + [eff]) <==> CleanupsFinished(log) && (eff.Cleanup? ==> eff.outcome == Done)
  {
    var more := log + [eff];
    assert more[|log|] == eff && forall i :: 0 <= i < |log| ==> more[i] == log[i];
  }

  lemma CleanupIsOfCheckpoint(e: Setup, s: System, gone: set<nat>)
    requires Enabled(e, s, Perform(gone)) && s.pass.value.todo[0].Cleanup? && PassOk(e, s, s.pass.value)
    ensures s.checkpoint.Some?
    ensures s.pass.value.todo[0].upTo == s.checkpoint.value.lsn
    ensures s.pass.value.todo[0].keepFrom == s.checkpoint.value.segment
  {
    hide AllSound, LastWrite, At, Contiguous;
    NextEffectSound(e, s, s.pass.value);
  }

  lemma {:induction false} RunKeepsTidy(e: Setup, s: System, ops: seq<Op>)
    requires Inv(e, s) && Tidy(s)
    ensures Tidy(Run(e, s, ops))
    decreases |ops|
  {
    hide Inv, Tidy, Next;
    if ops != [] {
      NextKeepsInv(e, s, ops[0]);
      NextKeepsTidy(e, s, ops[0]);
      RunKeepsTidy(e, Next(e, s, ops[0]), ops[1..]);
    }
  }

  /** If no cleanup was cut short, the LSNs in the whole directory are consecutive and end with the newest. */
  lemma RunsKeepDirectoryContiguous(e: Setup, ops: seq<Op>)
    requires CleanupsFinished(Run(e, Initial(), ops).log)
    ensures Suffix(Run(e, Initial(), ops).segs, Run(e, Initial(), ops).hist)
  {
    InitialInv(e);
    RunKeepsTidy(e, Initial(), ops);
  }

  /** The premise is needed: an interrupted cleanup may remove a middle segment first, because segments are visited in
      directory order. The log stays in order behind the checkpoint, but the directory has a hole. */
  lemma InterruptedCleanupLeavesHole(c: Codec, r1: Record, r2: Record, r3: Record)
    requires Encodable(c, r1) && Encodable(c, r2) && Encodable(c, r3) && r1.lsn == 1 && r2.lsn == 2 && r3.lsn == 3
    ensures var segs := [Segment(1, 0, 1, [r1], []), Segment(2, 0, 2, [r2], []), Segment(3, 0, 3, [r3], [])];
            var p, hist := Position(3, 3, Offset(c, [r3], 1)), [r1, r2, r3];
            && LogOk(c, segs, Some(p), hist) && {2} <= CoveredIds(segs, p.lsn, p.segment)
            && LogOk(c, Without(segs, {2}), Some(p), hist)
            && Flat(Without(segs, {2})) == [r1, r3] && !Suffix(Without(segs, {2}), hist)
  {
    var segs := [Segment(1, 0, 1, [r1], []), Segment(2, 0, 2, [r2], []), Segment(3, 0, 3, [r3], [])];
    var p, hist := Position(3, 3, Offset(c, [r3], 1)), [r1, r2, r3];
    ThreeSegments(c, r1, r2, r3);
    WithoutMiddle(segs[0], segs[1], segs[2]);
    MaxLsnOfOne(r2);
    hide LogOk, Without, Flat;
    assert Covered(segs[1], 3, 3) && segs[1].id in CoveredIds(segs, 3, 3);
    WithoutKeepsLog(c, segs, Some(p), hist, {2});
    assert hist[1..][0] == r2 && [r1, r3][0] == r1;
  }

  lemma ThreeSegments(c: Codec, r1: Record, r2: Record, r3: Record)
    requires Encodable(c, r1) && Encodable(c, r2) && Encodable(c, r3) && r1.lsn == 1 && r2.lsn == 2 && r3.lsn == 3
    ensures var segs := [Segment(1, 0, 1, [r1], []), Segment(2, 0, 2, [r2], []), Segment(3, 0, 3, [r3], [])];
            LogOk(c, segs, Some(Position(3, 3, Offset(c, [r3], 1))), [r1, r2, r3])
  {
    hide FrameLen, Encodable;
    var segs := [Segment(1, 0, 1, [r1], []), Segment(2, 0, 2, [r2], []), Segment(3, 0, 3, [r3], [])];
    var p, hist := Position(3, 3, Offset(c, [r3], 1)), [r1, r2, r3];
    assert segs[3..] == [] && [r3][1..] == [] && hist[3..] == [];
    assert Splits(c, segs, hist, p, 2, 1);
    assert hist[0..1] == [r1] && hist[1..2] == [r2] && hist[2..3] == [r3];
    assert HoldsRun(c, segs[0], hist) && HoldsRun(c, segs[1], hist) && HoldsRun(c, segs[2], hist);
  }

  lemma WithoutMiddle(a: Segment, b: Segment, d: Segment)
    requires a.id != b.id && d.id != b.id
    ensures Without([a, b, d], {b.id}) == [a, d] && Flat([a, d]) == a.recs + d.recs
  {
    var gone := {b.id};
    assert [a, b, d][1..] == [b, d] && [b, d][1..] == [d] && [d][1..] == [] && [a, d][1..] == [d];
    assert Without([d], gone) == [d] + Without([], gone);
    assert Without([b, d], gone) == [] + Without([d], gone);
    assert Flat([d]) == d.recs + Flat([]);
  }

  lemma MaxLsnOfOne(r: Record)
    ensures MaxLsn([r]) == r.lsn
  {
    assert [r][..0] == [] && MaxLsn([]) == 0;
  }

  // ---- segment sizes ----------------------------------------------------------------------------

  /** Only a segment with a single frame may exceed the limit. */
  ghost predicate SizeOk(c: Codec, segmentMax: nat, seg: Segment) {
    FileLen(c, seg) > segmentMax ==> |seg.recs| + (if seg.torn == [] then 0 else 1) == 1
  }

  ghost predicate SizesOk(c: Codec, segmentMax: nat, segs: Log) {
    forall k :: 0 <= k < |segs| ==> SizeOk(c, segmentMax, segs[k])
  }

  lemma FileLenBounds(c: Codec, seg: Segment)
    ensures FileLen(c, seg) >= SEGMENT_HEADER_LEN + |seg.recs| + |seg.torn|
    ensures forall r :: FileLen(c, WithRecord(seg, r)) == FileLen(c, seg) + FrameLen(c, r)
  {
    OffsetsGrow(c, seg.recs, 0, |seg.recs|);
    forall r ensures FileLen(c, WithRecord(seg, r)) == FileLen(c, seg) + FrameLen(c, r) {
      PrefixFrames(c, seg.recs, r, |seg.recs|);
    }
  }

  lemma AppendKeepsSizes(c: Codec, segmentMax: nat, segs: Log, r: Record, now: nat)
    requires segs != [] && Last(segs).torn == [] && SizesOk(c, segmentMax, segs)
    ensures SizesOk(c, segmentMax, AppendRecord(c, segmentMax, segs, r, now))
  {
    hide FrameLen, FileLen;
    var out := AppendRecord(c, segmentMax, segs, r, now);
    FileLenBounds(c, Last(segs));
    forall k | 0 <= k < |out| ensures SizeOk(c, segmentMax, out[k]) {
      if k < |out| - 1 { assert out[k] == segs[k]; }
    }
  }

  lemma {:induction false} AppendAllKeepsSizes(c: Codec, segmentMax: nat, segs: Log, recs: seq<Record>,
                                               clock: nat -> u64)
    requires segs != [] && Last(segs).torn == [] && SizesOk(c, segmentMax, segs)
    ensures SizesOk(c, segmentMax, AppendAll(c, segmentMax, segs, recs, clock))
    decreases |recs|
  {
    hide SizesOk, AppendRecord;
    if recs != [] {
      var front, r := recs[..|recs| - 1], recs[|recs| - 1];
      AppendAllKeepsSizes(c, segmentMax, segs, front, clock);
      FlatOfAppendAll(c, segmentMax, segs, front, clock);
      AppendKeepsSizes(c, segmentMax, AppendAll(c, segmentMax, segs, front, clock), r, clock(r.lsn));
    }
  }

  lemma {:induction false} WithEmptyKeepsSizes(c: Codec, segmentMax: nat, segs: Log, extra: seq<(nat, nat)>)
    requires segs != [] && segmentMax >= SEGMENT_HEADER_LEN && SizesOk(c, segmentMax, segs)
    ensures SizesOk(c, segmentMax, WithEmpty(segs, extra))
    decreases |extra|
  {
    if extra != [] {
      var seg := NewSegment(Last(segs).id + 1, extra[0].0, extra[0].1);
      assert SizeOk(c, segmentMax, seg);
      WithEmptyKeepsSizes(c, segmentMax, segs + [seg], extra[1..]);
    }
  }

  /** A segment keeps its size while a frame that fits, or that is its first, is being written. */
  lemma TornSize(c: Codec, segmentMax: nat, seg: Segment, r: Record, torn: seq<byte>)
    requires seg.torn == [] && 0 < |torn| < FrameLen(c, r)
    requires seg.recs == [] || FileLen(c, seg) + FrameLen(c, r) <= segmentMax
    ensures SizeOk(c, segmentMax, seg.(torn := torn))
  {
    hide FrameLen, Offset;
  }

  lemma WithTornKeepsSizes(c: Codec, segmentMax: nat, segs: Log, r: Record, now: nat, torn: seq<byte>)
    requires segs != [] && Last(segs).torn == [] && SizesOk(c, segmentMax, segs) && 0 < |torn| < FrameLen(c, r)
    ensures SizesOk(c, segmentMax, WithTorn(c, segmentMax, segs, r, now, torn))
  {
    hide FrameLen, FileLen, SizeOk;
    var out := WithTorn(c, segmentMax, segs, r, now, torn);
    FileLenBounds(c, Last(segs));
    if Rotates(c, segmentMax, Last(segs), r) {
      TornSize(c, segmentMax, NewSegment(Last(segs).id + 1, now, r.lsn), r, torn);
    } else {
      TornSize(c, segmentMax, Last(segs), r, torn);
    }
    forall k | 0 <= k < |out| ensures SizeOk(c, segmentMax, out[k]) {
      if k < |out| - 1 { assert out[k] == segs[k]; }
    }
  }

  lemma RestartKeepsSizes(c: Codec, segmentMax: nat, segs: Log, checkpoint: Option<Position>, now: nat)
    requires segmentMax >= SEGMENT_HEADER_LEN && SizesOk(c, segmentMax, segs)
    ensures SizesOk(c, segmentMax, Restart(c, segs, checkpoint, now))
  {
    hide NextLsn, ActiveId;
    var out := Restart(c, segs, checkpoint, now);
    forall k | 0 <= k < |out| ensures SizeOk(c, segmentMax, out[k]) {
      if k < |out| - 1 {
        assert out[k] == segs[k];
      } else if segs != [] && out[k] == Last(segs).(torn := []) {
        assert SizeOk(c, segmentMax, Last(segs));
        FileLenBounds(c, Last(segs));
      }
    }
  }

  lemma CrashKeepsSizes(e: Setup, segs: Log, buffered: seq<Record>, kept: nat, torn: seq<byte>, clock: nat -> u64,
                        extra: seq<(nat, nat)>)
    requires segs != [] && Last(segs).torn == [] && SizesOk(e.codec, e.segmentMax, segs)
    requires e.segmentMax >= SEGMENT_HEADER_LEN && kept <= |buffered| && TornFrom(e.codec, buffered, kept, torn)
    ensures SizesOk(e.codec, e.segmentMax, CrashLayout(e, segs, buffered, kept, torn, clock, extra))
  {
    hide AppendAll, WithTorn, WithEmpty, SizesOk, FrameLen, Frame, Encodable;
    var c, max, recs := e.codec, e.segmentMax, buffered[..kept];
    AppendAllKeepsSizes(c, max, segs, recs, clock);
    FlatOfAppendAll(c, max, segs, recs, clock);
    var whole := AppendAll(c, max, segs, recs, clock);
    if torn == [] {
      WithEmptyKeepsSizes(c, max, whole, extra);
    } else {
      var r := buffered[kept];
      WithTornKeepsSizes(c, max, whole, r, clock(r.lsn), torn);
      WithEmptyKeepsSizes(c, max, WithTorn(c, max, whole, r, clock(r.lsn), torn), extra);
    }
  }

  lemma NextKeepsSizes(e: Setup, s: System, op: Op)
    requires Inv(e, s) && e.segmentMax >= SEGMENT_HEADER_LEN && SizesOk(e.codec, e.segmentMax, s.segs)
    ensures SizesOk(e.codec, e.segmentMax, Next(e, s, op).segs)
  {
    hide Inv, LogOk, AcksHold, AtLeastOnce, PassOk, TornStarts, AllEncodable, AppendAll, Placed, Restart, CrashLayout,
         ReadCheckpoint, EntriesAfter, CoveredIds, Without, SizesOk, FileLen, ActiveId, NextLsn, TornFrom;
    if Enabled(e, s, op) {
      InvParts(e, s);
      var c, max := e.codec, e.segmentMax;
      match op
      case Flush(clock) => AppendAllKeepsSizes(c, max, s.segs, s.memory.buffered, clock);
      case CrashInFlush(kept, torn, clock, extra) =>
        CrashKeepsSizes(e, s.segs, s.memory.buffered, kept, torn, clock, extra);
      case Start(now) => RestartKeepsSizes(c, max, s.segs, s.checkpoint, now);
      case StartInterrupted => FrontKeepsSizes(c, max, s.segs);
      case Perform(gone) =>
        var eff := s.pass.value.todo[0];
        if eff.Cleanup? {
          var all := CleanupRemoves(e, s, gone);
          WithoutKeepsSizes(c, max, s.segs, all);
        }
      case _ =>
    }
  }

  lemma FrontKeepsSizes(c: Codec, segmentMax: nat, segs: Log)
    requires segs != [] && SizesOk(c, segmentMax, segs)
    ensures SizesOk(c, segmentMax, Front(segs))
  {
    hide SizeOk;
    forall k | 0 <= k < |Front(segs)| ensures SizeOk(c, segmentMax, Front(segs)[k]) {
      assert Front(segs)[k] == segs[k];
    }
  }

  lemma WithoutKeepsSizes(c: Codec, segmentMax: nat, segs: Log, gone: set<nat>)
    requires SizesOk(c, segmentMax, segs)
    ensures SizesOk(c, segmentMax, Without(segs, gone))
  {
    hide SizeOk;
    WithoutMembers(segs, gone);
    var out := Without(segs, gone);
    forall k | 0 <= k < |out| ensures SizeOk(c, segmentMax, out[k]) {
      assert out[k] in segs;
    }
  }

  lemma {:induction false} RunKeepsSizes(e: Setup, s: System, ops: seq<Op>)
    requires Inv(e, s) && e.segmentMax >= SEGMENT_HEADER_LEN && SizesOk(e.codec, e.segmentMax, s.segs)
    ensures SizesOk(e.codec, e.segmentMax, Run(e, s, ops).segs)
    decreases |ops|
  {
    hide Inv, SizesOk, Next;
    if ops != [] {
      NextKeepsInv(e, s, ops[0]);
      NextKeepsSizes(e, s, ops[0]);
      RunKeepsSizes(e, Next(e, s, ops[0]), ops[1..]);
    }
  }

  /** Rotation bound: in every reachable state a segment longer than the limit holds exactly one frame, whole
      or torn. */
  lemma RunsRespectSegmentLimit(e: Setup, ops: seq<Op>, k: nat)
    requires e.segmentMax >= SEGMENT_HEADER_LEN && k < |Run(e, Initial(), ops).segs|
    requires FileLen(e.codec, Run(e, Initial(), ops).segs[k]) > e.segmentMax
    ensures var seg := Run(e, Initial(), ops).segs[k];
            (|seg.recs| == 1 && seg.torn == []) || (seg.recs == [] && seg.torn != [])
  {
    hide FileLen;
    InitialInv(e);
    RunKeepsSizes(e, Initial(), ops);
    assert SizeOk(e.codec, e.segmentMax, Run(e, Initial(), ops).segs[k]);
  }

  // ---- sizes of entries -------------------------------------------------------------------------

  /** The size that replay counts for an entry is the length of its frame. */
  lemma EntryBytesIsFrameLen(c: Codec, segs: Log, e: Entry, k: int, i: int)
    requires IsEntry(c, segs, e, k, i)
    ensures EntryBytes(e) == FrameLen(c, e.record)
  {
    hide FrameLen;
  }

  // ---- paged reading ----------------------------------------------------------------------------

  /** Reading on from the end of the n-th entry gives exactly the entries behind it. */
  lemma ReadOnFromEntry(c: Codec, segs: Log, p: Position, k: int, i: int, n: nat)
    requires Ordered(segs) && Located(c, segs, p, k, i) && n < |EntriesAfter(c, segs, Some(p))|
    ensures var entries := EntriesAfter(c, segs, Some(p));
            && EntriesAfter(c, segs, Some(entries[n].nextPosition)) == entries[n + 1..]
            && exists k', i' :: Located(c, segs, entries[n].nextPosition, k', i')
  {
    hide EntriesAfter, Tail, RecordsOf, WholeSegment, Offset;
    var k', i' := NthAfterLocated(c, segs, p, k, i, n);
    var next := EntriesAfter(c, segs, Some(p))[n].nextPosition;
    assert Located(c, segs, next, k', i' + 1);
    EntriesAfterLocated(c, segs, next, k', i' + 1);
  }

  /** Reading may start here: at the beginning, or at a frame boundary. */
  ghost predicate Startable(c: Codec, segs: Log, start: Option<Position>) {
    start.Some? ==> exists k, i :: Located(c, segs, start.value, k, i)
  }

  /** Reading from the beginning is reading from the end of the first segment's header. */
  lemma BeginningIsFirstHeader(c: Codec, segs: Log, lsn: nat)
    requires segs != [] && Ordered(segs)
    ensures var first := Position(lsn, segs[0].id, SEGMENT_HEADER_LEN);
            Located(c, segs, first, 0, 0) && EntriesAfter(c, segs, Some(first)) == EntriesAfter(c, segs, None)
  {
    EntriesAfterLocated(c, segs, Position(lsn, segs[0].id, SEGMENT_HEADER_LEN), 0, 0);
  }

  /** The same as `ReadOnFromEntry`, from any start. */
  lemma ReadOnFromStart(c: Codec, segs: Log, start: Option<Position>, n: nat)
    requires Ordered(segs) && Startable(c, segs, start) && n < |EntriesAfter(c, segs, start)|
    ensures var entries := EntriesAfter(c, segs, start);
            && EntriesAfter(c, segs, Some(entries[n].nextPosition)) == entries[n + 1..]
            && Startable(c, segs, Some(entries[n].nextPosition))
  {
    hide Located, EntriesAfter;
    if start.None? {
      assert segs != [] by { NothingInNoSegments(c, start); }
      BeginningIsFirstHeader(c, segs, 0);
      ReadOnFromEntry(c, segs, Position(0, segs[0].id, SEGMENT_HEADER_LEN), 0, 0, n);
    } else {
      var k, i :| Located(c, segs, start.value, k, i);
      ReadOnFromEntry(c, segs, start.value, k, i, n);
    }
  }

  lemma NothingInNoSegments(c: Codec, start: Option<Position>)
    ensures EntriesAfter(c, [], start) == []
  {
  }

  /** Read a page of n entries, go on from the last one's next position, until a page is empty. */
  ghost function Pages(c: Codec, segs: Log, start: Option<Position>, n: nat): seq<seq<Entry>>
    requires n > 0 && Ordered(segs) && Startable(c, segs, start)
    decreases |EntriesAfter(c, segs, start)|
  {
    var page := Take(EntriesAfter(c, segs, start), Some(n));
    if page == [] then []
    else
      ReadOnFromStart(c, segs, start, |page| - 1);
      [page] + Pages(c, segs, Some(page[|page| - 1].nextPosition), n)
  }

  function Joined(pages: seq<seq<Entry>>): seq<Entry> {
    if pages == [] then [] else pages[0] + Joined(pages[1..])
  }

  /** Paged reading refines the flat log: the pages have at most n entries and together are the log behind the start,
      each entry once and in order. */
  lemma {:induction false} PagesEnumerateLog(c: Codec, segs: Log, start: Option<Position>, n: nat)
    requires n > 0 && Ordered(segs) && Startable(c, segs, start)
    ensures Joined(Pages(c, segs, start, n)) == EntriesAfter(c, segs, start)
    ensures forall m :: 0 <= m < |Pages(c, segs, start, n)| ==> 0 < |Pages(c, segs, start, n)[m]| <= n
    decreases |EntriesAfter(c, segs, start)|
  {
    hide EntriesAfter, Startable;
    var entries := EntriesAfter(c, segs, start);
    var page := Take(entries, Some(n));
    if page != [] {
      ReadOnFromStart(c, segs, start, |page| - 1);
      var next := Some(page[|page| - 1].nextPosition);
      PagesEnumerateLog(c, segs, next, n);
      var rest := Pages(c, segs, next, n);
      assert ([page] + rest)[1..] == rest;
      assert entries == page + entries[|page|..];
    }
  }

  /** On the bytes of the directory, a pass reads the records right behind its start, up to the batch size. */
  lemma PassReadsBytes(e: Setup, s: System, files: Files, latest: bool)
    requires Inv(e, s) && s.memory.Up? && Lawful(e.codec) && Holds(e.codec, e.nodeId, files, s.segs)
    ensures forall id :: id in IdsOf(s.segs) ==> id in files
    ensures var (start, persisted) := ReadCheckpoint(e.codec, s.segs, s.checkpoint, latest);
            var read := ReadLog(e.codec, files, IdsOf(s.segs), start, Some(REPLAY_BATCH_SIZE));
            read.Success? && ReadBack(e.codec, s.segs, s.hist, read.value, LsnOf(persisted))
  {
    InvParts(e, s);
    hide Inv, ReadCheckpoint, EntriesAfter, ReadBack, ReadLog, Stored, Take, AcksHold, AtLeastOnce, PassOk, TornStarts;
    var (start, persisted) := ReadCheckpoint(e.codec, s.segs, s.checkpoint, latest);
    ReadCheckpointFacts(e.codec, s.segs, s.checkpoint, s.hist, latest);
    PassReads(e, s, latest);
    if start.Some? {
      var k, i := SplitOf(e.codec, s.segs, s.hist, start.value);
      assert Aligned(e.codec, s.segs, start) by { AlignedAt(e.codec, s.segs, start.value, k, i); }
    }
    ReadLogOfImage(e.codec, e.nodeId, files, s.segs, start, Some(REPLAY_BATCH_SIZE));
  }

  lemma PassFindsNoGap(e: Setup, s: System, cfg: Config, world: World, timers: map<string, nat>, latest: bool)
    requires LogOk(e.codec, s.segs, s.checkpoint, s.hist) && s.segs != [] && Last(s.segs).torn == []
    requires forall r :: Plan(cfg, r) != Failure(WalIssue)
    ensures var start := ReadCheckpoint(e.codec, s.segs, s.checkpoint, latest).0;
            var entries := Take(EntriesAfter(e.codec, s.segs, start), Some(REPLAY_BATCH_SIZE));
            Pass(world, cfg, start, timers, entries).1 != Stopped(WalIssue)
  {
    hide LogOk, ReadCheckpoint, EntriesAfter, Take, Plan, PassFrom, At, Flat;
    var (start, persisted) := ReadCheckpoint(e.codec, s.segs, s.checkpoint, latest);
    ReadCheckpointFacts(e.codec, s.segs, s.checkpoint, s.hist, latest);
    PassReads(e, s, latest);
    NoGapReported(world, cfg, StartState(world, start, timers),
                  Take(EntriesAfter(e.codec, s.segs, start), Some(REPLAY_BATCH_SIZE)), LsnOf(persisted), [],
                  if start.Some? then Some(start.value.lsn + 1) else None, 0);
  }

  /** In every reachable state a pass that starts finds no LSN gap, wherever its checkpoint leads it. */
  lemma RunsNeverReportGap(e: Setup, ops: seq<Op>, op: Op)
    requires op.BeginPass? && Enabled(e, Run(e, Initial(), ops), op)
    requires forall r :: Plan(op.cfg, r) != Failure(WalIssue)
    ensures var s := Run(e, Initial(), ops);
            var start := ReadCheckpoint(e.codec, s.segs, s.checkpoint, op.latest).0;
            var entries := Take(EntriesAfter(e.codec, s.segs, start), Some(REPLAY_BATCH_SIZE));
            Pass(op.world, op.cfg, start, op.timers, entries).1 != Stopped(WalIssue)
  {
    hide Run, Inv, LogOk, AcksHold, AtLeastOnce, TornStarts, PassOk, ReadCheckpoint, EntriesAfter, Take, Plan, Pass;
    InitialInv(e);
    RunKeepsInv(e, Initial(), ops);
    var s := Run(e, Initial(), ops);
    InvParts(e, s);
    PassFindsNoGap(e, s, op.cfg, op.world, op.timers, op.latest);
  }

  lemma AlignedAt(c: Codec, segs: Log, p: Position, k: int, i: int)
    requires Ordered(segs) && Located(c, segs, p, k, i)
    ensures Aligned(c, segs, Some(p))
  {
    forall k' | 0 <= k' < |segs| && segs[k'].id == p.segment ensures exists i' :: Located(c, segs, p, k', i') {
      assert k' == k;
    }
  }
}
