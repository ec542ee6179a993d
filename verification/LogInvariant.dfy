/** What the segments, the checkpoint and the record history have to do with each other, and what keeps it so. */
module LogInvariant {
  import opened Wrappers
  import opened FrameCodec
  import opened SegmentCodec
  import opened SegmentFile
  import opened SegmentLog
  import opened WalSpec
  import opened LogReader
  import opened WalFiles

  /** Record i of the history, counted from 0, has LSN i + 1: LSNs are consecutive and never reused. */
  ghost predicate Numbered(hist: seq<Record>) {
    forall i :: 0 <= i < |hist| ==> hist[i].lsn == i + 1
  }

  /** A segment holds a contiguous run of the history, beginning at its start LSN. */
  ghost predicate HoldsRun(c: Codec, seg: Segment, hist: seq<Record>) {
    && Torn(c, seg.torn)
    && (forall i :: 0 <= i < |seg.recs| ==> Encodable(c, seg.recs[i]))
    && (seg.recs != [] ==>
          && 1 <= seg.start && seg.start - 1 + |seg.recs| <= |hist|
          && seg.recs == hist[seg.start - 1..seg.start - 1 + |seg.recs|])
  }

  ghost predicate Runs(c: Codec, segs: Log, hist: seq<Record>) {
    forall k :: 0 <= k < |segs| ==> HoldsRun(c, segs[k], hist)
  }

  /** The log behind the checkpoint is complete; without a checkpoint the whole log is. */
  ghost predicate Complete(c: Codec, segs: Log, checkpoint: Option<Position>, hist: seq<Record>) {
    match checkpoint
    case None => Flat(segs) == hist
    case Some(p) => At(c, segs, hist, p)
  }

  ghost predicate LogOk(c: Codec, segs: Log, checkpoint: Option<Position>, hist: seq<Record>) {
    && Ordered(segs) && Numbered(hist) && Runs(c, segs, hist) && Complete(c, segs, checkpoint, hist)
  }

  lemma LogIsOrdered(c: Codec, segs: Log, checkpoint: Option<Position>, hist: seq<Record>)
    requires LogOk(c, segs, checkpoint, hist)
    ensures Ordered(segs) && Numbered(hist)
  {
  }

  ghost predicate NothingAfter(segs: Log, k: int)
    requires k >= 0
  {
    forall j :: k < j < |segs| ==> segs[j].recs == []
  }

  /** A torn first frame that could become the end of the log again was meant to carry its segment's start LSN. */
  ghost predicate TornStarts(segs: Log, checkpoint: Option<Position>, hist: seq<Record>) {
    forall k :: 0 <= k < |segs| && segs[k].recs == [] && segs[k].torn != [] && NothingAfter(segs, k)
                && (checkpoint.Some? ==> checkpoint.value.segment <= segs[k].id)
                ==> segs[k].start == |hist| + 1
  }

  function LsnOf(checkpoint: Option<Position>): nat {
    if checkpoint.Some? then checkpoint.value.lsn else 0
  }

  // ---- changes that touch no record -----------------------------------------------------------

  /** b has a's segments with their records, then segments without records. */
  ghost predicate SameRecords(a: Log, b: Log) {
    && |a| <= |b|
    && (forall k :: 0 <= k < |a| ==> a[k].id == b[k].id && a[k].recs == b[k].recs)
    && (forall k :: |a| <= k < |b| ==> b[k].recs == [])
  }

  lemma {:induction false} FlatOfEmpty(segs: Log)
    requires forall k :: 0 <= k < |segs| ==> segs[k].recs == []
    ensures Flat(segs) == []
  {
    if segs != [] { FlatOfEmpty(segs[1..]); }
  }

  lemma {:induction false} SameFlat(a: Log, b: Log)
    requires SameRecords(a, b)
    ensures Flat(a) == Flat(b)
  {
    if a == [] {
      FlatOfEmpty(b);
    } else {
      SameFlat(a[1..], b[1..]);
    }
  }

  lemma SameAt(c: Codec, a: Log, b: Log, hist: seq<Record>, p: Position)
    requires SameRecords(a, b) && At(c, a, hist, p)
    ensures At(c, b, hist, p)
  {
    var k, i :| Splits(c, a, hist, p, k, i);
    SameFlat(a[k + 1..], b[k + 1..]);
    assert Splits(c, b, hist, p, k, i);
  }

  lemma SameComplete(c: Codec, a: Log, b: Log, checkpoint: Option<Position>, hist: seq<Record>)
    requires SameRecords(a, b) && Complete(c, a, checkpoint, hist)
    ensures Complete(c, b, checkpoint, hist)
  {
    SameFlat(a, b);
    if checkpoint.Some? { SameAt(c, a, b, hist, checkpoint.value); }
  }

  /** Dropping a last segment without records hides nothing from positions in other segments. */
  lemma DropEmptyLast(c: Codec, segs: Log, hist: seq<Record>, p: Position)
    requires segs != [] && Last(segs).recs == [] && p.segment != Last(segs).id && At(c, segs, hist, p)
    ensures At(c, Front(segs), hist, p)
  {
    var k, i :| Splits(c, segs, hist, p, k, i);
    var front := Front(segs);
    assert SameRecords(front[k + 1..], segs[k + 1..]);
    SameFlat(front[k + 1..], segs[k + 1..]);
    assert Splits(c, front, hist, p, k, i);
  }

  // ---- appending ------------------------------------------------------------------------------

  lemma TailIsSuffix(segs: Log, k: nat, i: nat)
    requires k < |segs| && i <= |segs[k].recs|
    ensures i <= |Flat(segs[k..])| && Tail(segs, k, i) == Flat(segs[k..])[i..]
  {
    FlatSplit(segs, k);
    DropFront(segs[k].recs, Flat(segs[k + 1..]), i);
  }

  lemma AppendKeepsAt(c: Codec, segs: Log, hist: seq<Record>, p: Position, r: Record, segmentMax: nat, now: nat)
    requires segs != [] && At(c, segs, hist, p)
    ensures At(c, AppendRecord(c, segmentMax, segs, r, now), hist + [r], p)
  {
    hide FrameLen, FileLen, Flat;
    var out := AppendRecord(c, segmentMax, segs, r, now);
    var k, i :| Splits(c, segs, hist, p, k, i);
    PrefixFrames(c, segs[k].recs, r, i);
    AppendToSuffix(c, segs, r, segmentMax, now, k);
    TailIsSuffix(segs, k, i);
    TailIsSuffix(out, k, i);
    DropFront(Flat(segs[k..]), [r], i);
    DropFront(hist, [r], p.lsn);
    assert out[k].id == segs[k].id && (out[k].recs == segs[k].recs || out[k].recs == segs[k].recs + [r]);
    assert Splits(c, out, hist + [r], p, k, i);
  }

  lemma AppendToSuffix(c: Codec, segs: Log, r: Record, segmentMax: nat, now: nat, k: nat)
    requires k < |segs|
    ensures var out := AppendRecord(c, segmentMax, segs, r, now);
            k < |out| && Flat(out[k..]) == Flat(segs[k..]) + [r]
  {
    hide FrameLen, FileLen;
    var out := AppendRecord(c, segmentMax, segs, r, now);
    var a, b := segs[k..], out[k..];
    FlatLast(a);
    FlatLast(b);
    if Rotates(c, segmentMax, Last(segs), r) {
      assert Front(b) == a;
    } else {
      assert Front(b) == Front(a);
      Assoc(Flat(Front(a)), Last(a).recs, [r]);
    }
  }

  lemma LongerHistory(c: Codec, seg: Segment, hist: seq<Record>, more: seq<Record>)
    requires HoldsRun(c, seg, hist) && hist <= more
    ensures HoldsRun(c, seg, more)
  {
  }

  /** Writing the next record keeps the log in order, whether or not it opens a new segment. */
  lemma AppendKeepsLog(c: Codec, segs: Log, checkpoint: Option<Position>, hist: seq<Record>, r: Record,
                       segmentMax: nat, now: nat)
    requires LogOk(c, segs, checkpoint, hist) && Appendable(segs, |hist| + 1)
    requires r.lsn == |hist| + 1 && Encodable(c, r)
    ensures var out := AppendRecord(c, segmentMax, segs, r, now);
            && LogOk(c, out, checkpoint, hist + [r])
            && Last(out).torn == [] && Last(out).recs != []
  {
    hide FrameLen, Encodable, HoldsRun, At, Stands, FileLen, Runs, Flat;
    var out := AppendRecord(c, segmentMax, segs, r, now);
    AppendRecordShape(c, segs, r, segmentMax, now);
    AppendKeepsRuns(c, segs, checkpoint, hist, r, segmentMax, now);
    if checkpoint.Some? { AppendKeepsAt(c, segs, hist, checkpoint.value, r, segmentMax, now); }
  }

  lemma AppendKeepsRuns(c: Codec, segs: Log, checkpoint: Option<Position>, hist: seq<Record>, r: Record,
                        segmentMax: nat, now: nat)
    requires LogOk(c, segs, checkpoint, hist) && Appendable(segs, |hist| + 1)
    requires r.lsn == |hist| + 1 && Encodable(c, r)
    ensures Runs(c, AppendRecord(c, segmentMax, segs, r, now), hist + [r])
  {
    hide FrameLen, FileLen, Encodable, HoldsRun, Complete, Numbered, Ordered;
    var out, more := AppendRecord(c, segmentMax, segs, r, now), hist + [r];
    forall k | 0 <= k < |out| ensures HoldsRun(c, out[k], more) {
      if k < |out| - 1 {
        LongerHistory(c, segs[k], hist, more);
      } else {
        var rotates := Rotates(c, segmentMax, Last(segs), r);
        var seg := if rotates then NewSegment(Last(segs).id + 1, now, r.lsn) else Last(segs);
        NewRun(c, Last(segs).id + 1, now, r.lsn, hist);
        RunGrows(c, segs, checkpoint, hist, seg, r);
      }
    }
  }

  lemma NewRun(c: Codec, id: nat, now: nat, start: nat, hist: seq<Record>)
    ensures HoldsRun(c, NewSegment(id, now, start), hist)
  {
  }

  lemma RunGrows(c: Codec, segs: Log, checkpoint: Option<Position>, hist: seq<Record>, seg: Segment, r: Record)
    requires LogOk(c, segs, checkpoint, hist) && segs != [] && r.lsn == |hist| + 1 && Encodable(c, r)
    requires HoldsRun(c, seg, hist)
    requires seg.recs == [] ==> seg.start == r.lsn
    requires seg.recs != [] ==> seg == Last(segs)
    ensures HoldsRun(c, WithRecord(seg, r), hist + [r])
  {
    hide LogOk, Encodable, Torn;
    var n, more := |seg.recs|, hist + [r];
    if n == 0 {
      assert more[seg.start - 1..seg.start] == [r];
    } else {
      LastRunEndsHistory(c, segs, checkpoint, hist);
      assert more[seg.start - 1..seg.start + n] == hist[seg.start - 1..seg.start - 1 + n] + [r];
    }
  }

  /** If the last segment has records, the newest durable record is the last of them. */
  lemma LastRunEndsHistory(c: Codec, segs: Log, checkpoint: Option<Position>, hist: seq<Record>)
    requires LogOk(c, segs, checkpoint, hist) && segs != [] && Last(segs).recs != []
    ensures Last(segs).start - 1 + |Last(segs).recs| == |hist|
  {
    var last := Last(segs);
    var newest := last.recs[|last.recs| - 1];
    assert newest.lsn == last.start - 1 + |last.recs|;
    hide HoldsRun, Offset;
    if checkpoint.None? {
      FlatLast(segs);
      assert hist[|hist| - 1] == newest;
    } else {
      var p := checkpoint.value;
      var k, i :| Splits(c, segs, hist, p, k, i);
      TailEnd(segs, k, i);
      if Tail(segs, k, i) == [] {
        assert p.lsn == |hist|;
      } else {
        assert hist[p.lsn..][|hist| - p.lsn - 1] == newest;
      }
    }
  }

  lemma TailEnd(segs: Log, k: nat, i: nat)
    requires k < |segs| && i <= |segs[k].recs| && Last(segs).recs != []
    ensures var tail, last := Tail(segs, k, i), Last(segs);
            if tail == [] then k == |segs| - 1 && i == |last.recs|
            else tail[|tail| - 1] == last.recs[|last.recs| - 1]
  {
    if k < |segs| - 1 { FlatLast(segs[k + 1..]); } else { assert segs[k + 1..] == []; }
  }

  // ---- recovery -------------------------------------------------------------------------------

  lemma NewestHasMaxLsn(hist: seq<Record>, n: nat)
    requires Numbered(hist) && n <= |hist|
    ensures MaxLsn(hist[n..]) == if n < |hist| then |hist| else 0
  {
    var tail := hist[n..];
    MaxLsnBounds(tail);
    if n < |hist| { assert tail[|tail| - 1].lsn == |hist|; }
  }

  lemma {:induction false} FlatInHistory(c: Codec, segs: Log, hist: seq<Record>)
    requires Runs(c, segs, hist) && Numbered(hist)
    ensures forall j :: 0 <= j < |Flat(segs)| ==> Flat(segs)[j].lsn <= |hist|
  {
    if segs != [] {
      FlatInHistory(c, segs[1..], hist);
      assert HoldsRun(c, segs[0], hist);
    }
  }

  /** The highest LSN still on disk is the newest one, unless everything above the checkpoint is gone. */
  lemma MaxLsnOfLog(c: Codec, segs: Log, checkpoint: Option<Position>, hist: seq<Record>)
    requires LogOk(c, segs, checkpoint, hist)
    ensures MaxLsn(Flat(segs)) <= |hist|
    ensures LsnOf(checkpoint) <= |hist|
    ensures checkpoint.None? || LsnOf(checkpoint) < |hist| ==> MaxLsn(Flat(segs)) == |hist|
  {
    hide MaxLsn, Flat, Offset, Tail, HoldsRun;
    FlatInHistory(c, segs, hist);
    MaxLsnBounds(Flat(segs));
    MaxLsnOfNothing();
    if checkpoint.None? {
      NewestHasMaxLsn(hist, 0);
      assert hist[0..] == hist;
    } else {
      var p := checkpoint.value;
      var k, i :| Splits(c, segs, hist, p, k, i);
      var before := BeforeTail(segs, k, i);
      MaxLsnConcat(before, Tail(segs, k, i));
      NewestHasMaxLsn(hist, p.lsn);
    }
  }

  lemma BeforeTail(segs: Log, k: nat, i: nat) returns (before: seq<Record>)
    requires k < |segs| && i <= |segs[k].recs|
    ensures Flat(segs) == before + Tail(segs, k, i)
  {
    FlatConcat(segs[..k], segs[k..]);
    assert segs == segs[..k] + segs[k..];
    TailIsSuffix(segs, k, i);
    var rest := Flat(segs[k..]);
    assert rest == rest[..i] + rest[i..];
    Assoc(Flat(segs[..k]), rest[..i], rest[i..]);
    before := Flat(segs[..k]) + rest[..i];
  }

  lemma MaxLsnOfNothing()
    ensures MaxLsn([]) == 0
  {
  }

  /** Recovery hands out the LSN behind the newest durable record. */
  lemma RecoveredLsn(c: Codec, segs: Log, checkpoint: Option<Position>, hist: seq<Record>)
    requires LogOk(c, segs, checkpoint, hist)
    ensures NextLsn(segs, checkpoint) == |hist| + 1
  {
    MaxLsnOfLog(c, segs, checkpoint, hist);
  }

  lemma CheckpointSegmentExists(c: Codec, segs: Log, checkpoint: Option<Position>, hist: seq<Record>)
    requires LogOk(c, segs, checkpoint, hist) && checkpoint.Some?
    ensures segs != [] && checkpoint.value.segment <= Last(segs).id
  {
    var k, i :| Splits(c, segs, hist, checkpoint.value, k, i);
  }

  lemma RestartSameRecords(c: Codec, segs: Log, checkpoint: Option<Position>, now: nat)
    requires Ordered(segs) && (segs != [] ==> Last(segs).id <= ActiveId(segs, checkpoint))
    ensures SameRecords(segs, Restart(c, segs, checkpoint, now)) && Ordered(Restart(c, segs, checkpoint, now))
  {
    hide NextLsn;
    if segs != [] && FileLen(c, Last(segs)) == SEGMENT_HEADER_LEN {
      OffsetsGrow(c, Last(segs).recs, 0, |Last(segs).recs|);
    }
  }

  /** Start-up keeps the log in order and leaves a segment the next LSN can go into. */
  lemma RestartKeepsLog(c: Codec, segs: Log, checkpoint: Option<Position>, hist: seq<Record>, now: nat)
    requires LogOk(c, segs, checkpoint, hist)
    requires segs != [] && Last(segs).recs == [] && Last(segs).torn != [] ==> Last(segs).start == |hist| + 1
    ensures var out := Restart(c, segs, checkpoint, now);
            && LogOk(c, out, checkpoint, hist) && SameRecords(segs, out)
            && Appendable(out, |hist| + 1) && NextLsn(segs, checkpoint) == |hist| + 1
  {
    hide HoldsRun, Complete, NextLsn;
    var out := Restart(c, segs, checkpoint, now);
    RecoveredLsn(c, segs, checkpoint, hist);
    RestartSameRecords(c, segs, checkpoint, now);
    SameComplete(c, segs, out, checkpoint, hist);
    RestartAppendable(c, segs, checkpoint, now);
    NewRun(c, ActiveId(segs, checkpoint), now, |hist| + 1, hist);
    if segs != [] { RepairedRun(c, Last(segs), hist); }
    forall k | 0 <= k < |out| ensures HoldsRun(c, out[k], hist) {
      if k < |out| - 1 { assert out[k] == segs[k]; }
    }
  }

  lemma RepairedRun(c: Codec, seg: Segment, hist: seq<Record>)
    requires HoldsRun(c, seg, hist)
    ensures HoldsRun(c, seg.(torn := []), hist)
  {
  }

  // ---- torn starts ----------------------------------------------------------------------------

  lemma RecordsAtTheEnd(segs: Log, checkpoint: Option<Position>, hist: seq<Record>)
    requires segs != [] && Last(segs).recs != []
    ensures TornStarts(segs, checkpoint, hist)
  {
  }

  /** Only the last of a's segments may get a torn start, and then the right one; new segments get none. */
  lemma TornStartsKept(a: Log, b: Log, checkpoint: Option<Position>, hist: seq<Record>)
    requires TornStarts(a, checkpoint, hist) && SameRecords(a, b)
    requires forall k :: 0 <= k < |b| && b[k].torn != [] && b[k].recs == [] ==>
               b[k].start == |hist| + 1 || (k < |a| && a[k] == b[k])
    ensures TornStarts(b, checkpoint, hist)
  {
    forall k | 0 <= k < |b| && b[k].recs == [] && b[k].torn != [] && NothingAfter(b, k)
               && (checkpoint.Some? ==> checkpoint.value.segment <= b[k].id)
      ensures b[k].start == |hist| + 1
    {
      if k < |a| && a[k] == b[k] {
        forall j | k < j < |a| ensures a[j].recs == [] { assert a[j].recs == b[j].recs; }
      }
    }
  }

  lemma TornStartsOfLast(c: Codec, segs: Log, checkpoint: Option<Position>, hist: seq<Record>)
    requires LogOk(c, segs, checkpoint, hist) && TornStarts(segs, checkpoint, hist)
    ensures segs != [] && Last(segs).recs == [] && Last(segs).torn != [] ==> Last(segs).start == |hist| + 1
  {
    if checkpoint.Some? { CheckpointSegmentExists(c, segs, checkpoint, hist); }
  }

  /** Moving the checkpoint forward leaves less to claim. */
  lemma TornStartsLater(segs: Log, checkpoint: Option<Position>, later: Option<Position>, hist: seq<Record>)
    requires TornStarts(segs, checkpoint, hist) && later.Some?
    requires checkpoint.Some? ==> checkpoint.value.segment <= later.value.segment
    ensures TornStarts(segs, later, hist)
  {
  }

  lemma TornStartsFront(segs: Log, checkpoint: Option<Position>, hist: seq<Record>)
    requires segs != [] && Last(segs).recs == [] && TornStarts(segs, checkpoint, hist)
    ensures TornStarts(Front(segs), checkpoint, hist)
  {
    var front := Front(segs);
    forall k | 0 <= k < |front| && front[k].recs == [] && front[k].torn != [] && NothingAfter(front, k)
               && (checkpoint.Some? ==> checkpoint.value.segment <= front[k].id)
      ensures front[k].start == |hist| + 1
    {
      assert segs[k] == front[k];
      forall j | k < j < |segs| ensures segs[j].recs == [] { if j < |front| { assert segs[j] == front[j]; } }
    }
  }

  // ---- cleanup --------------------------------------------------------------------------------

  lemma {:induction false} WithoutSplits(segs: Log, gone: set<nat>, k: nat)
    requires k <= |segs| && forall j :: k <= j < |segs| ==> segs[j].id !in gone
    ensures Without(segs, gone) == Without(segs[..k], gone) + segs[k..]
    decreases |segs|
  {
    if k == 0 {
      WithoutNothing(segs, gone);
      assert segs[..0] == [] && segs[0..] == segs;
    } else {
      var rest := segs[1..];
      WithoutSplits(rest, gone, k - 1);
      assert segs[..k][1..] == rest[..k - 1] && rest[k - 1..] == segs[k..] && segs[..k][0] == segs[0];
      Assoc(if segs[0].id in gone then [] else [segs[0]], Without(rest[..k - 1], gone), segs[k..]);
    }
  }

  lemma {:induction false} WithoutNothing(segs: Log, gone: set<nat>)
    requires forall j :: 0 <= j < |segs| ==> segs[j].id !in gone
    ensures Without(segs, gone) == segs
  {
    if segs != [] {
      WithoutNothing(segs[1..], gone);
      assert segs == [segs[0]] + segs[1..];
    }
  }

  /** What is left is what was there, minus the removed segments. */
  lemma WithoutMembers(segs: Log, gone: set<nat>)
    ensures forall seg :: seg in Without(segs, gone) <==> seg in segs && seg.id !in gone
    ensures Ordered(segs) ==> Ordered(Without(segs, gone))
  {
    WithoutPart(segs, gone);
  }

  lemma WithoutKeepsSplit(c: Codec, segs: Log, gone: set<nat>, hist: seq<Record>, p: Position, k: int, i: int)
    requires Ordered(segs) && Splits(c, segs, hist, p, k, i) && forall id :: id in gone ==> id < p.segment
    ensures Splits(c, Without(segs, gone), hist, p, |Without(segs[..k], gone)|, i)
  {
    hide Flat, Offset;
    WithoutSplits(segs, gone, k);
    var out, n := Without(segs, gone), |Without(segs[..k], gone)|;
    assert out[n] == segs[k] && out[n + 1..] == segs[k + 1..];
  }

  /** Removing segments in front of a position keeps everything behind it. */
  lemma WithoutKeepsAt(c: Codec, segs: Log, gone: set<nat>, hist: seq<Record>, p: Position)
    requires Ordered(segs) && At(c, segs, hist, p) && forall id :: id in gone ==> id < p.segment
    ensures At(c, Without(segs, gone), hist, p)
  {
    hide Splits;
    var k, i := SplitOf(c, segs, hist, p);
    SplitBounds(c, segs, hist, p, k, i);
    WithoutKeepsSplit(c, segs, gone, hist, p, k, i);
  }

  lemma SplitBounds(c: Codec, segs: Log, hist: seq<Record>, p: Position, k: int, i: int)
    requires Splits(c, segs, hist, p, k, i)
    ensures 0 <= k < |segs| && 0 <= i <= |segs[k].recs| && segs[k].id == p.segment
  {
  }

  lemma WithoutKeepsStanding(c: Codec, segs: Log, gone: set<nat>, r: Record, p: Position)
    requires Stands(c, segs, r, p) && p.segment !in gone
    ensures Stands(c, Without(segs, gone), r, p)
  {
    hide Offset;
    var k, j :| 0 <= k < |segs| && 0 <= j < |segs[k].recs| && segs[k].recs[j] == r
                && p == Position(r.lsn, segs[k].id, Offset(c, segs[k].recs, j));
    WithoutMembers(segs, gone);
    var out := Without(segs, gone);
    assert segs[k] in out;
    var n :| 0 <= n < |out| && out[n] == segs[k];
    StandsAt(c, out, r, p, n, j);
  }

  /** Removing any segments in front of the checkpoint's keeps the log in order and the newest segment in place. */
  lemma WithoutKeepsLog(c: Codec, segs: Log, checkpoint: Option<Position>, hist: seq<Record>, gone: set<nat>)
    requires LogOk(c, segs, checkpoint, hist) && checkpoint.Some?
    requires forall id :: id in gone ==> id < checkpoint.value.segment
    ensures var out := Without(segs, gone);
            && LogOk(c, out, checkpoint, hist)
            && segs != [] && out != [] && Last(out) == Last(segs)
  {
    hide HoldsRun, At;
    WithoutKeepsAt(c, segs, gone, hist, checkpoint.value);
    CheckpointSegmentExists(c, segs, checkpoint, hist);
    WithoutMembers(segs, gone);
    WithoutSplits(segs, gone, |segs| - 1);
    assert segs[|segs| - 1..] == [Last(segs)];
    var out := Without(segs, gone);
    forall k | 0 <= k < |out| ensures HoldsRun(c, out[k], hist) {
      assert out[k] in segs;
      var j :| 0 <= j < |segs| && segs[j] == out[k];
    }
  }

  lemma NothingAfterInSuffix(front: Log, segs: Log, kept: nat, k: nat)
    requires kept <= |segs| && |front| <= k < |front| + |segs| - kept && NothingAfter(front + segs[kept..], k)
    ensures (front + segs[kept..])[k] == segs[k - |front| + kept] && NothingAfter(segs, k - |front| + kept)
  {
    var out, k0 := front + segs[kept..], k - |front| + kept;
    forall j | k0 < j < |segs| ensures segs[j].recs == [] {
      var m := j - kept + |front|;
      assert out[m] == segs[j];
    }
  }

  lemma TornStartsWithout(c: Codec, segs: Log, checkpoint: Option<Position>, hist: seq<Record>, gone: set<nat>)
    requires LogOk(c, segs, checkpoint, hist) && checkpoint.Some? && TornStarts(segs, checkpoint, hist)
    requires forall id :: id in gone ==> id < checkpoint.value.segment
    ensures TornStarts(Without(segs, gone), checkpoint, hist)
  {
    hide HoldsRun, At, Offset, Flat, Tail, NothingAfter;
    var out := Without(segs, gone);
    var kept, i := SplitOf(c, segs, hist, checkpoint.value);
    WithoutSplits(segs, gone, kept);
    var front := Without(segs[..kept], gone);
    var n := |front|;
    WithoutMembers(segs[..kept], gone);
    forall j | 0 <= j < n ensures front[j].id < checkpoint.value.segment {
      assert front[j] in segs[..kept];
      var m :| 0 <= m < kept && segs[m] == front[j];
      assert segs[m].id < segs[kept].id;
    }
    forall k | 0 <= k < |out| && out[k].recs == [] && out[k].torn != [] && NothingAfter(out, k)
               && checkpoint.value.segment <= out[k].id
      ensures out[k].start == |hist| + 1
    {
      assert k >= n;
      NothingAfterInSuffix(front, segs, kept, k);
    }
  }

  // ---- reading --------------------------------------------------------------------------------

  /** The entries are records base + 1, base + 2, ... of the history, and each leaves a position to resume from. */
  ghost predicate ReadBack(c: Codec, segs: Log, hist: seq<Record>, entries: seq<Entry>, base: nat) {
    && base + |entries| <= |hist|
    && Contiguous(entries, base)
    && forall n :: 0 <= n < |entries| ==>
         && entries[n].record == hist[base + n] && At(c, segs, hist, entries[n].nextPosition)
         && entries[n].nextPosition.offset > SEGMENT_HEADER_LEN
  }

  lemma EntryIsBoundary(c: Codec, segs: Log, hist: seq<Record>, e: Entry, k: int, i: int, n: nat)
    requires n <= |hist| && IsEntry(c, segs, e, k, i) && Tail(segs, k, i + 1) == hist[n..] && e.record.lsn == n
    ensures At(c, segs, hist, e.nextPosition) && e.nextPosition.offset > SEGMENT_HEADER_LEN
  {
    assert Splits(c, segs, hist, e.nextPosition, k, i + 1);
  }

  lemma ReadBackFromRecords(c: Codec, segs: Log, hist: seq<Record>, entries: seq<Entry>, base: nat)
    requires Numbered(hist) && base <= |hist| && RecordsOf(entries) == hist[base..] && LsnsAgree(entries)
    requires forall n :: 0 <= n < |entries| ==>
               At(c, segs, hist, entries[n].nextPosition) && entries[n].nextPosition.offset > SEGMENT_HEADER_LEN
    ensures ReadBack(c, segs, hist, entries, base)
  {
    hide At;
    forall n | 0 <= n < |entries| ensures entries[n].record == hist[base + n] {
      assert RecordsOf(entries)[n] == hist[base..][n];
    }
  }

  /** Reading behind a position returns exactly the history above it. */
  lemma ReadFromPosition(c: Codec, segs: Log, hist: seq<Record>, p: Position)
    requires Ordered(segs) && Numbered(hist) && At(c, segs, hist, p)
    ensures ReadBack(c, segs, hist, EntriesAfter(c, segs, Some(p)), p.lsn)
    ensures |EntriesAfter(c, segs, Some(p))| == |hist| - p.lsn
  {
    hide RecordsOf, EntriesAfter, At, Tail;
    var entries := EntriesAfter(c, segs, Some(p));
    var k0, i0 := SplitOf(c, segs, hist, p);
    RecordsAfterLocated(c, segs, p, k0, i0);
    EntriesAgree(c, segs, Some(p));
    forall n | 0 <= n < |entries|
      ensures At(c, segs, hist, entries[n].nextPosition) && entries[n].nextPosition.offset > SEGMENT_HEADER_LEN
    {
      var k, i := NthAfterLocated(c, segs, p, k0, i0, n);
      RecordAt(entries, hist, p.lsn, n);
      EntryIsBoundary(c, segs, hist, entries[n], k, i, p.lsn + n + 1);
    }
    ReadBackFromRecords(c, segs, hist, entries, p.lsn);
  }

  lemma SplitOf(c: Codec, segs: Log, hist: seq<Record>, p: Position) returns (k: int, i: int)
    requires At(c, segs, hist, p)
    ensures Splits(c, segs, hist, p, k, i)
  {
    k, i :| Splits(c, segs, hist, p, k, i);
  }

  lemma RecordAt(entries: seq<Entry>, hist: seq<Record>, base: nat, n: nat)
    requires Numbered(hist) && base <= |hist| && RecordsOf(entries) == hist[base..] && n < |entries|
    ensures entries[n].record == hist[base + n] && entries[n].record.lsn == base + n + 1
    ensures RecordsOf(entries)[n + 1..] == hist[base + n + 1..]
  {
    assert RecordsOf(entries)[n] == hist[base..][n];
    assert hist[base..][n + 1..] == hist[base + n + 1..];
  }

  /** Reading from the start returns the whole log. */
  lemma ReadFromStart(c: Codec, segs: Log, hist: seq<Record>, base: nat)
    requires Numbered(hist) && base <= |hist| && Flat(segs) == hist[base..]
    ensures ReadBack(c, segs, hist, EntriesAfter(c, segs, None), base)
    ensures |EntriesAfter(c, segs, None)| == |hist| - base
  {
    hide RecordsOf, EntriesAfter, At, Tail, Flat;
    var entries := EntriesAfter(c, segs, None);
    RecordsOfAll(c, segs);
    EntriesAgree(c, segs, None);
    forall n | 0 <= n < |entries|
      ensures At(c, segs, hist, entries[n].nextPosition) && entries[n].nextPosition.offset > SEGMENT_HEADER_LEN
    {
      var k, i := NthOfAll(c, segs, n);
      RecordAt(entries, hist, base, n);
      EntryIsBoundary(c, segs, hist, entries[n], k, i, base + n + 1);
    }
    ReadBackFromRecords(c, segs, hist, entries, base);
  }

  // ---- the ends of the log --------------------------------------------------------------------

  /** `checkpoint_before_wal_floor`. */
  predicate BeforeFloor(p: Position, bounds: Bounds) {
    bounds.floor.Some? &&
    (p.segment < bounds.floor.value.segment
     || (p.segment == bounds.floor.value.segment && p.offset < bounds.floor.value.offset))
  }

  /** A checkpoint before the floor: neither its segment nor an older one holds a record, and a newer one does. */
  lemma BehindAnEmptySegment(c: Codec, segs: Log, hist: seq<Record>, p: Position)
    requires Ordered(segs) && At(c, segs, hist, p) && BeforeFloor(p, BoundsOf(c, segs))
    ensures Flat(segs) == hist[p.lsn..] && p.lsn < |hist|
    ensures forall k :: 0 <= k < |segs| && segs[k].id <= p.segment ==> segs[k].recs == []
  {
    hide RecordsOf, EntriesAfter, Flat, Offset, Tail;
    var entries := EntriesAfter(c, segs, None);
    RecordsOfAll(c, segs);
    var k, i := SplitOf(c, segs, hist, p);
    var k0, i0 := NthOfAll(c, segs, 0);
    FirstEntryFirst(segs, k0, i0);
    assert entries[0].position == Position(segs[k0].recs[i0].lsn, segs[k0].id, Offset(c, segs[k0].recs, i0));
    OffsetsGrow(c, segs[k].recs, 0, i);
    StartOffsetIsHeader(c, segs[k0].recs);
    assert k < k0;
    EmptyFront(segs, k0, k, i);
  }

  lemma StartOffsetIsHeader(c: Codec, recs: seq<Record>)
    ensures Offset(c, recs, 0) == SEGMENT_HEADER_LEN
  {
  }

  lemma FirstEntryFirst(segs: Log, k0: nat, i0: nat)
    requires k0 < |segs| && i0 < |segs[k0].recs| && |Tail(segs, k0, i0 + 1)| + 1 == |Flat(segs)|
    ensures i0 == 0 && Flat(segs[..k0]) == []
  {
    FlatSplit(segs, k0);
  }

  lemma EmptyFront(segs: Log, k0: nat, k: nat, i: nat)
    requires k < k0 < |segs| && Flat(segs[..k0]) == [] && i <= |segs[k].recs|
    ensures forall j :: 0 <= j < k0 ==> segs[j].recs == []
    ensures Tail(segs, k, i) == Flat(segs)
  {
    var front := segs[..k0];
    forall j | 0 <= j < k0 ensures segs[j].recs == [] {
      FlatSplit(front, j);
      assert front[j] == segs[j];
    }
    FlatSplit(segs, k);
    FlatOfEmpty(segs[..k]);
    assert Tail(segs, k, i) == Flat(segs[k + 1..]);
  }

  /** The last entry read lies in the last segment iff that segment has records. */
  lemma LastEntry(c: Codec, segs: Log)
    requires segs != [] && Ordered(segs) && EntriesAfter(c, segs, None) != []
    ensures var entries, last := EntriesAfter(c, segs, None), Last(segs);
            var next := entries[|entries| - 1].nextPosition;
            if last.recs == [] then next.segment < last.id
            else next == Position(last.recs[|last.recs| - 1].lsn, last.id, Offset(c, last.recs, |last.recs|))
  {
    hide EntriesAfter, Flat, Tail, RecordsOf, Offset;
    var entries, last := EntriesAfter(c, segs, None), Last(segs);
    OneMoreSegment(c, segs, |segs| - 1);
    assert segs[..|segs|] == segs && segs[..|segs| - 1] == Front(segs);
    var front := EntriesAfter(c, Front(segs), None);
    if last.recs == [] {
      assert entries == front;
      var k, i := NthOfAll(c, Front(segs), |front| - 1);
    } else {
      WholeSegmentAt(c, last, 0, |last.recs| - 1);
    }
  }

  /** The tail that a reset moves the checkpoint to is the end of the whole history. */
  lemma TailIsTheEnd(c: Codec, segs: Log, checkpoint: Option<Position>, hist: seq<Record>)
    requires LogOk(c, segs, checkpoint, hist) && segs != [] && Last(segs).torn == []
    requires checkpoint.None? || LsnOf(checkpoint) < |hist|
    ensures BoundsOf(c, segs).tail == Some(Position(|hist|, Last(segs).id, FileLen(c, Last(segs))))
    ensures At(c, segs, hist, BoundsOf(c, segs).tail.value)
  {
    hide EntriesAfter, HoldsRun, MaxLsn, Complete;
    MaxLsnOfLog(c, segs, checkpoint, hist);
    var last := Last(segs);
    var p := Position(|hist|, last.id, FileLen(c, last));
    if EntriesAfter(c, segs, None) != [] { LastEntry(c, segs); }
    if last.recs != [] {
      LastRunEndsHistory(c, segs, checkpoint, hist);
      LastLsn(c, segs, hist);
    }
    assert segs[|segs|..] == [];
    assert Splits(c, segs, hist, p, |segs| - 1, |last.recs|);
  }

  lemma LastLsn(c: Codec, segs: Log, hist: seq<Record>)
    requires segs != [] && Runs(c, segs, hist) && Numbered(hist) && Last(segs).recs != []
    requires Last(segs).start - 1 + |Last(segs).recs| == |hist|
    ensures Last(segs).recs[|Last(segs).recs| - 1].lsn == |hist|
  {
    assert HoldsRun(c, Last(segs), hist);
  }
}
