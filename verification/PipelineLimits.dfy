/** Where the pipeline's guarantees end: concrete runs, and what is true instead. */
module PipelineLimits {
  import opened Bytes
  import opened Wrappers
  import opened FrameCodec
  import opened SegmentCodec
  import opened SegmentFile
  import opened SegmentLog
  import opened WalSpec
  import opened LogReader
  import opened LogInvariant
  import opened ReplayPlan
  import opened Replay
  import opened ReplayExact
  import opened Pipeline
  import opened PipelineReplay
  import opened PipelineTheorems

  // ---- an acknowledged record that no sink ever sees --------------------------------------------

  const EMPTY_TAIL := Position(0, 1, SEGMENT_HEADER_LEN)

  /** First start, checkpoint initialised to the tail of the empty log, restart, one append and flush. */
  function BeforeThePass(e: Setup, r: Record, clock: nat -> u64): seq<Op> {
    [Start(0), Initialize(true), Crash, Start(0), Append(r), Flush(clock)]
  }

  ghost function AfterRestart(e: Setup): System {
    var started := System([NewSegment(1, 0, 1)], None, Up(1, []), None, [], [], [], map[], {}, map[]);
    var initialized := started.(checkpoint := Some(EMPTY_TAIL));
    initialized.(segs := [NewSegment(1, 0, 1), NewSegment(2, 0, 1)])
  }

  lemma FreshStart(e: Setup)
    ensures var started := System([NewSegment(1, 0, 1)], None, Up(1, []), None, [], [], [], map[], {}, map[]);
            && Next(e, Initial(), Start(0)) == started
            && Next(e, started, Initialize(true)) == started.(checkpoint := Some(EMPTY_TAIL))
  {
    var started := System([NewSegment(1, 0, 1)], None, Up(1, []), None, [], [], [], map[], {}, map[]);
    assert Flat([]) == [] && MaxLsn([]) == 0;
    InitialInv(e);
    assert Next(e, Initial(), Start(0)) == started;
    NextKeepsInv(e, Initial(), Start(0));
    InvParts(e, started);
    hide Inv, EntriesAfter;
    TailIsTheEnd(e.codec, started.segs, None, []);
    assert {} + Between(0, 0) == {};
  }

  lemma Restarted(e: Setup)
    ensures var s := AfterRestart(e).(segs := [NewSegment(1, 0, 1)]);
            Next(e, Next(e, s, Crash), Start(0)) == AfterRestart(e)
  {
    EmptySegmentsHoldNothing();
    assert MaxLsn([]) == 0;
  }

  lemma EmptySegmentsHoldNothing()
    ensures Flat([NewSegment(1, 0, 1)]) == []
  {
    assert [NewSegment(1, 0, 1)][1..] == [];
  }

  lemma AppendedAndFlushed(e: Setup, r: Record, clock: nat -> u64)
    requires Encodable(e.codec, r.(lsn := 1, nodeId := e.nodeId)) && !e.noSync
    ensures var s, r1 := AfterRestart(e), r.(lsn := 1, nodeId := e.nodeId);
            var out := Next(e, Next(e, s, Append(r)), Flush(clock));
            && out.segs == [NewSegment(1, 0, 1), WithRecord(NewSegment(2, 0, 1), r1)]
            && out.hist == [r1] && 1 in out.acked && out.checkpoint == Some(EMPTY_TAIL)
            && out.memory.Up? && out.pass.None? && out.jumped == {} && out.log == []
  {
    var s, r1 := AfterRestart(e), r.(lsn := 1, nodeId := e.nodeId);
    FlushOne(e.codec, e.segmentMax, r1, clock);
    hide Encodable, FrameLen, AppendAll, Placed, Rotates;
    var appended := Next(e, s, Append(r));
    assert appended.memory == Up(2, [] + [r1]) && [] + [r1] == [r1];
    assert 1 in Between(0, 1);
    assert Enabled(e, appended, Flush(clock));
    assert [] + [r1] == [r1];
  }

  lemma FlushOne(c: Codec, segmentMax: nat, r: Record, clock: nat -> u64)
    ensures var segs := [NewSegment(1, 0, 1), NewSegment(2, 0, 1)];
            AppendAll(c, segmentMax, segs, [r], clock) == [NewSegment(1, 0, 1), WithRecord(NewSegment(2, 0, 1), r)]
  {
    hide FrameLen;
    var segs := [NewSegment(1, 0, 1), NewSegment(2, 0, 1)];
    assert [r][..0] == [] && AppendAll(c, segmentMax, segs, [], clock) == segs;
    assert FileLen(c, Last(segs)) == SEGMENT_HEADER_LEN;
    assert Front(segs) == [NewSegment(1, 0, 1)];
  }

  lemma RunSteps(e: Setup, s: System, ops: seq<Op>)
    requires |ops| == 6
    ensures Run(e, s, ops)
            == Next(e, Next(e, Next(e, Next(e, Next(e, Next(e, s, ops[0]), ops[1]), ops[2]), ops[3]), ops[4]), ops[5])
  {
    hide Next;
    var s1 := Next(e, s, ops[0]);
    var s2 := Next(e, s1, ops[1]);
    var s3 := Next(e, s2, ops[2]);
    var s4 := Next(e, s3, ops[3]);
    var s5 := Next(e, s4, ops[4]);
    assert ops[1..][1..] == ops[2..] && ops[2..][1..] == ops[3..] && ops[3..][1..] == ops[4..];
    assert ops[4..][1..] == ops[5..] && ops[5..][1..] == [];
    assert Run(e, s1, ops[1..]) == Run(e, s2, ops[2..]);
    assert Run(e, s2, ops[2..]) == Run(e, s3, ops[3..]);
    assert Run(e, s3, ops[3..]) == Run(e, s4, ops[4..]);
    assert Run(e, s4, ops[4..]) == Run(e, s5, ops[5..]);
    assert Run(e, s5, ops[5..]) == Run(e, Next(e, s5, ops[5]), []);
  }

  lemma FloorBehindEmptySegment(c: Codec, r: Record)
    ensures var segs := [NewSegment(1, 0, 1), WithRecord(NewSegment(2, 0, 1), r)];
            BeforeFloor(EMPTY_TAIL, BoundsOf(c, segs))
  {
    var segs := [NewSegment(1, 0, 1), WithRecord(NewSegment(2, 0, 1), r)];
    OneMoreSegment(c, segs, 0);
    OneMoreSegment(c, segs, 1);
    assert segs[..0] == [] && segs[..2] == segs;
    var entries := EntriesAfter(c, segs, None);
    assert entries == WholeSegment(c, segs[1], 0);
    WholeSegmentAt(c, segs[1], 0, 0);
  }

  /** The premise of checkpoint stability is needed: under `Latest`, a restart before the first event leaves the
      checkpoint on an empty segment, and the first pass after that event moves it over a record already acknowledged
      as durable. No effect has taken place, and the new checkpoint is anchored, so nothing will bring the record
      back. */
  lemma AcknowledgedRecordIsJumped(e: Setup, r: Record, clock: nat -> u64, cfg: Config, world: World,
                                   timers: map<string, nat>)
    requires Encodable(e.codec, r.(lsn := 1, nodeId := e.nodeId)) && !e.noSync
    requires cfg.sinkNames != [] && Distinct(cfg.sinkNames)
    ensures var s := Next(e, Run(e, Initial(), BeforeThePass(e, r, clock)), BeginPass(cfg, world, timers, true));
            && s.hist == [r.(lsn := 1, nodeId := e.nodeId)]
            && 1 in s.acked && 1 in s.jumped && LsnOf(s.checkpoint) == 1
            && s.log == [] && Anchored(e.codec, s)
  {
    var ops := BeforeThePass(e, r, clock);
    InitialInv(e);
    RunKeepsInv(e, Initial(), ops);
    hide Inv, Encodable, Run, Next;
    RunSteps(e, Initial(), ops);
    FreshStart(e);
    Restarted(e);
    AppendedAndFlushed(e, r, clock);
    PassJumps(e, Run(e, Initial(), ops), r.(lsn := 1, nodeId := e.nodeId), BeginPass(cfg, world, timers, true));
  }

  lemma PassJumps(e: Setup, s: System, r: Record, op: Op)
    requires Inv(e, s) && op.BeginPass? && op.latest && op.cfg.sinkNames != [] && Distinct(op.cfg.sinkNames)
    requires s.segs == [NewSegment(1, 0, 1), WithRecord(NewSegment(2, 0, 1), r)] && s.hist == [r]
    requires s.checkpoint == Some(EMPTY_TAIL) && s.memory.Up? && s.pass.None?
    ensures var s1 := Next(e, s, op);
            && s1.hist == s.hist && s1.acked == s.acked && s1.log == s.log
            && 1 in s1.jumped && LsnOf(s1.checkpoint) == 1 && Anchored(e.codec, s1)
  {
    hide Inv, EntriesAfter, Pass, LogOk, AcksHold, AtLeastOnce, TornStarts, PassOk, ReadCheckpoint, FileLen, Anchored;
    InvParts(e, s);
    NextKeepsInv(e, s, op);
    InvParts(e, Next(e, s, op));
    ResetsToEnd(e.codec, s.segs, r);
    assert 1 in Between(0, 1);
    AnchoredOnSecond(e.codec, Next(e, s, op), r);
  }

  lemma ResetsToEnd(c: Codec, segs: Log, r: Record)
    requires segs == [NewSegment(1, 0, 1), WithRecord(NewSegment(2, 0, 1), r)]
    requires LogOk(c, segs, Some(EMPTY_TAIL), [r])
    ensures var end := Some(Position(1, 2, FileLen(c, segs[1])));
            ReadCheckpoint(c, segs, Some(EMPTY_TAIL), true) == (end, end)
  {
    hide EntriesAfter, BeforeFloor, FileLen, LogOk;
    FloorBehindEmptySegment(c, r);
    TailIsTheEnd(c, segs, Some(EMPTY_TAIL), [r]);
  }

  lemma AnchoredOnSecond(c: Codec, s: System, r: Record)
    requires s.segs == [NewSegment(1, 0, 1), WithRecord(NewSegment(2, 0, 1), r)] && s.checkpoint.Some?
    requires LogOk(c, s.segs, s.checkpoint, s.hist)
    requires s.checkpoint.value.segment == 2 && s.checkpoint.value.offset == FileLen(c, s.segs[1])
    ensures Anchored(c, s)
  {
    hide Tail, Runs;
    var k, i := SplitOf(c, s.segs, s.hist, s.checkpoint.value);
    assert k == 1;
    OffsetsGrow(c, s.segs[1].recs, 0, 1);
    assert i > 0;
  }
}
