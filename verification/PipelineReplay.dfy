/** Reading the checkpoint, starting a pass and each effect of a pass keep the pipeline's invariant. */
module PipelineReplay {
  import opened Wrappers
  import opened FrameCodec
  import opened SegmentFile
  import opened SegmentLog
  import opened WalSpec
  import opened WalFiles
  import opened LogInvariant
  import opened ReplayPlan
  import opened Replay
  import opened ReplayExact
  import opened ReplayTheorems
  import opened Pipeline

  // ---- reading the checkpoint -----------------------------------------------------------------

  /** A position with fewer records behind it lies in the same segment or a later one. */
  lemma LaterPosition(c: Codec, segs: Log, hist: seq<Record>, a: Position, b: Position)
    requires Ordered(segs) && At(c, segs, hist, a) && At(c, segs, hist, b) && a.lsn < b.lsn
    ensures a.segment <= b.segment
  {
    hide Offset, Flat, Tail;
    var k, i := SplitOf(c, segs, hist, a);
    var k', i' := SplitOf(c, segs, hist, b);
    if k' < k { TailShrinks(segs, k', i', k, i); }
  }

  lemma EndPosition(c: Codec, segs: Log, hist: seq<Record>, a: Position)
    requires Ordered(segs) && At(c, segs, hist, a)
    ensures segs != [] && a.segment <= Last(segs).id
  {
    var k, i := SplitOf(c, segs, hist, a);
  }

  /** What `read_checkpoint` leaves behind: a start the log is complete from, and a checkpoint that never moves back. */
  lemma ReadCheckpointFacts(c: Codec, segs: Log, checkpoint: Option<Position>, hist: seq<Record>, latest: bool)
    requires LogOk(c, segs, checkpoint, hist) && segs != [] && Last(segs).torn == []
    ensures var (start, persisted) := ReadCheckpoint(c, segs, checkpoint, latest);
            && LogOk(c, segs, persisted, hist)
            && LsnOf(checkpoint) <= LsnOf(persisted) <= |hist|
            && (checkpoint.Some? ==> persisted.Some? && checkpoint.value.segment <= persisted.value.segment)
            && (start.Some? ==> start == persisted)
            && (start.None? ==> persisted == checkpoint && Flat(segs) == hist[LsnOf(checkpoint)..])
            && (persisted != checkpoint ==> persisted.value.lsn == |hist|)
  {
    hide At, BoundsOf, FileLen, Runs, BeforeFloor;
    MaxLsnOfLog(c, segs, checkpoint, hist);
    if checkpoint.Some? && BeforeFloor(checkpoint.value, BoundsOf(c, segs)) {
      BehindAnEmptySegment(c, segs, hist, checkpoint.value);
      EndPosition(c, segs, hist, checkpoint.value);
      TailIsTheEnd(c, segs, checkpoint, hist);
    } else if checkpoint.None? {
      TailIsTheEnd(c, segs, checkpoint, hist);
      assert hist[0..] == hist;
    }
  }

  lemma LaterCheckpointKeepsAcks(e: Setup, s: System, checkpoint: Option<Position>)
    requires AcksHold(e, s) && LsnOf(s.checkpoint) <= LsnOf(checkpoint)
    requires s.checkpoint.Some? ==> checkpoint.Some? && s.checkpoint.value.segment <= checkpoint.value.segment
    ensures AcksHold(e, s.(checkpoint := checkpoint))
  {
    hide Stands;
  }

  lemma ReadKeepsInv(e: Setup, s: System, latest: bool)
    requires Inv(e, s) && s.memory.Up? && s.pass.None?
    ensures Inv(e, Read(e, s, latest))
  {
    hide LogOk, AckHolds, TornStarts, ReadCheckpoint, MarkHolds;
    ReadCheckpointFacts(e.codec, s.segs, s.checkpoint, s.hist, latest);
    var persisted := ReadCheckpoint(e.codec, s.segs, s.checkpoint, latest).1;
    LaterCheckpointKeepsAcks(e, s, persisted);
    if persisted.Some? { TornStartsLater(s.segs, s.checkpoint, persisted, s.hist); }
  }

  // ---- starting a pass ------------------------------------------------------------------------

  lemma TakeReadBack(c: Codec, segs: Log, hist: seq<Record>, entries: seq<Entry>, base: nat, limit: nat)
    requires ReadBack(c, segs, hist, entries, base)
    ensures ReadBack(c, segs, hist, Take(entries, Some(limit)), base)
  {
    hide At;
  }

  /** The entries a pass reads are the records right behind its start: no gap, wherever it starts. */
  lemma PassReads(e: Setup, s: System, latest: bool)
    requires LogOk(e.codec, s.segs, s.checkpoint, s.hist) && s.segs != [] && Last(s.segs).torn == []
    ensures var (start, persisted) := ReadCheckpoint(e.codec, s.segs, s.checkpoint, latest);
            ReadBack(e.codec, s.segs, s.hist, Take(EntriesAfter(e.codec, s.segs, start), Some(REPLAY_BATCH_SIZE)),
                     LsnOf(persisted))
  {
    hide ReadCheckpoint, EntriesAfter, ReadBack, At, Runs, Flat;
    ReadCheckpointFacts(e.codec, s.segs, s.checkpoint, s.hist, latest);
    var (start, persisted) := ReadCheckpoint(e.codec, s.segs, s.checkpoint, latest);
    if start.Some? {
      ReadFromPosition(e.codec, s.segs, s.hist, start.value);
    } else {
      ReadFromStart(e.codec, s.segs, s.hist, LsnOf(persisted));
    }
    TakeReadBack(e.codec, s.segs, s.hist, EntriesAfter(e.codec, s.segs, start), LsnOf(persisted), REPLAY_BATCH_SIZE);
  }

  /** The pass that starts agrees with the log it has just read. */
  lemma BeginPassOk(e: Setup, s: System, op: Op)
    requires LogOk(e.codec, s.segs, s.checkpoint, s.hist) && MemoryOk(s) && s.memory.Up?
    requires op.BeginPass? && Distinct(op.cfg.sinkNames)
    ensures PassOk(e, Begin(e, s, op), Begin(e, s, op).pass.value)
  {
    hide LogOk, ReadCheckpoint, EntriesAfter, Pass, Take, Contiguous, At;
    var start := ReadCheckpoint(e.codec, s.segs, s.checkpoint, op.latest).0;
    var s1 := Begin(e, s, op);
    var run := s1.pass.value;
    ReadCheckpointFacts(e.codec, s.segs, s.checkpoint, s.hist, op.latest);
    PassReads(e, s, op.latest);
    PassSoundAlone(op.world, op.cfg, run.entries, run.base, start, op.timers);
    assert s.log[|s.log|..] == [];
  }

  lemma PassSoundAlone(w: World, cfg: Config, entries: seq<Entry>, base: nat, start: Option<Position>,
                       timers: map<string, nat>)
    requires Distinct(cfg.sinkNames) && Contiguous(entries, base) && (start.Some? ==> start.value.lsn == base)
    ensures AllSound(cfg, entries, base, start, [] + Pass(w, cfg, start, timers, entries).0.trace)
  {
    hide Pass, AllSound;
    PassIsSound(w, cfg, entries, [], base, start, timers);
    assert entries + [] == entries;
    var trace := Pass(w, cfg, start, timers, entries).0.trace;
    assert [] + trace == trace;
  }

  lemma BeginKeepsInv(e: Setup, s: System, op: Op)
    requires Inv(e, s) && op.BeginPass? && Enabled(e, s, op)
    ensures Inv(e, Do(e, s, op))
  {
    var idle := s.(pass := None);
    assert Inv(e, idle) by { hide LogOk, MarkHolds, AckHolds, TornStarts, PassOk; }
    InvParts(e, s);
    hide LogOk, AtLeastOnce, AcksHold, TornStarts, ReadCheckpoint, PassOk, Inv, MemoryOk;
    ReadKeepsInv(e, idle, op.latest);
    BeginPassOk(e, s, op);
    var s1 := Do(e, s, op);
    assert s1 == Read(e, idle, op.latest).(pass := s1.pass);
    WithPass(e, Read(e, idle, op.latest), s1.pass.value);
  }

  lemma InvParts(e: Setup, s: System)
    ensures Inv(e, s) <==>
              && LogOk(e.codec, s.segs, s.checkpoint, s.hist) && TornStarts(s.segs, s.checkpoint, s.hist)
              && MemoryOk(s) && AcksHold(e, s) && AtLeastOnce(s)
              && (s.pass.Some? ==> PassOk(e, s, s.pass.value))
  {
    hide LogOk, TornStarts, MemoryOk, AcksHold, AtLeastOnce, PassOk;
  }

  lemma WithPass(e: Setup, s: System, run: PassRun)
    requires Inv(e, s) && PassOk(e, s.(pass := Some(run)), run)
    ensures Inv(e, s.(pass := Some(run)))
  {
    hide LogOk, MarkHolds, AckHolds, TornStarts, PassOk;
  }

  // ---- handled records stay handled -----------------------------------------------------------

  lemma MarkStays(m: MarkedBy, r: Record, log: Trace, eff: Effect)
    requires MarkHolds(m, r, log)
    ensures MarkHolds(m, r, log + [eff])
  {
    hide HandledBy;
    assert (log + [eff])[m.from..m.upTo] == log[m.from..m.upTo];
  }

  lemma DeliveredGrows(s: System, eff: Effect)
    requires AtLeastOnce(s)
    ensures AtLeastOnce(s.(log := s.log + [eff]))
  {
    hide MarkHolds;
    forall lsn | 1 <= lsn <= LsnOf(s.checkpoint) && lsn <= |s.hist| && lsn !in s.jumped
      ensures lsn in s.marks && MarkHolds(s.marks[lsn], s.hist[lsn - 1], s.log + [eff])
    {
      MarkStays(s.marks[lsn], s.hist[lsn - 1], s.log, eff);
    }
  }

  /** The emission sequence contains every single record's events. */
  lemma {:induction false} EmissionContains(cfg: Config, entries: seq<Entry>, n: nat, sink: string)
    requires n < |entries| && entries[n].position.lsn == entries[n].record.lsn
    ensures multiset(RecordEvents(cfg, entries[n].record, sink)) <= multiset(Emitted(cfg, entries, sink))
    ensures Plan(cfg, entries[n].record).Failure? ==> entries[n].record.lsn in ToQuarantine(cfg, entries)
    decreases |entries|
  {
    hide Plan;
    var last := |entries| - 1;
    if n < last {
      EmissionContains(cfg, entries[..last], n, sink);
    } else {
      assert EntryEvents(cfg, entries[n], sink) == RecordEvents(cfg, entries[n].record, sink);
    }
  }

  /** Exact handling of the first m entries in this pass handles each of their records. */
  lemma HandledRecord(cfg: Config, entries: seq<Entry>, base: nat, m: nat, n: nat, done: Trace)
    requires Contiguous(entries, base) && n < m <= |entries| && Handled(cfg, entries, m, done)
    ensures HandledBy(cfg, entries[n].record, done)
  {
    hide Accepted, Quarantined, RecordEvents, Emitted, ToQuarantine, Plan;
    assert entries[..m][n] == entries[n];
    forall s | s in cfg.sinkNames
      ensures multiset(RecordEvents(cfg, entries[n].record, s)) <= multiset(Accepted(done, s))
    {
      EmissionContains(cfg, entries[..m], n, s);
    }
    EmissionContains(cfg, entries[..m], n, "");
  }

  // ---- effects --------------------------------------------------------------------------------

  /** The effect about to happen is sound after the ones that have happened. */
  lemma NextEffectSound(e: Setup, s: System, run: PassRun)
    requires PassOk(e, s, run) && run.todo != []
    ensures Sound(run.cfg, run.entries, run.base, run.start, s.log[run.before..], run.todo[0])
    ensures var more := s.log + [run.todo[0]];
            && more[run.before..] == s.log[run.before..] + [run.todo[0]]
            && more[run.before..] + run.todo[1..] == s.log[run.before..] + run.todo
  {
    hide Sound, At, LastWrite;
    var done := s.log[run.before..];
    var all := done + run.todo;
    assert all[..|done|] == done && all[|done|] == run.todo[0];
    assert (s.log + [run.todo[0]])[run.before..] == done + [run.todo[0]];
    assert (done + [run.todo[0]]) + run.todo[1..] == all;
  }

  /** An effect that leaves disk and checkpoint alone. */
  lemma PlainEffectKeepsInv(e: Setup, s: System, gone: set<nat>)
    requires Enabled(e, s, Perform(gone))
    requires var eff := s.pass.value.todo[0];
             eff.Send? || eff.Quarantine? || (eff.WriteCheckpoint? && eff.outcome == Refused)
    requires Inv(e, s)
    ensures Inv(e, Do(e, s, Perform(gone)))
  {
    InvParts(e, s);
    var eff := s.pass.value.todo[0];
    PlainShape(e, s, gone);
    hide LogOk, AcksHold, TornStarts, AtLeastOnce, PassOk, Inv, MemoryOk, Do, Apply, Enabled;
    var s1 := Do(e, s, Perform(gone));
    PlainKeepsPass(e, s, s1);
    DeliveredGrows(s, eff);
    SameBeside(e, s.(log := s.log + [eff]), s1);
    SameBeside(e, s, s1);
    InvParts(e, s1);
  }

  /** Parts of the invariant that do not look at the fields an effect changes. */
  lemma SameBeside(e: Setup, s: System, s1: System)
    requires s1.hist == s.hist && s1.checkpoint == s.checkpoint && s1.jumped == s.jumped && s1.marks == s.marks
    requires s1.acked == s.acked
    ensures s1.log == s.log && AtLeastOnce(s) ==> AtLeastOnce(s1)
    ensures s1.segs == s.segs && AcksHold(e, s) ==> AcksHold(e, s1)
    ensures s1.segs == s.segs && s1.memory == s.memory && MemoryOk(s) ==> MemoryOk(s1)
  {
    hide MarkHolds, AckHolds;
  }

  lemma PlainKeepsPass(e: Setup, s: System, s1: System)
    requires s.pass.Some? && s.pass.value.todo != [] && PassOk(e, s, s.pass.value)
    requires var eff := s.pass.value.todo[0];
             eff.Send? || eff.Quarantine? || (eff.WriteCheckpoint? && eff.outcome == Refused)
    requires var run := s.pass.value;
             s1 == s.(log := s.log + [run.todo[0]], origin := s.origin + [run.cfg],
                      pass := Some(run.(todo := run.todo[1..])))
    ensures PassOk(e, s1, s1.pass.value)
  {
    hide AllSound, At, LastWrite, Sound, Contiguous;
    var run := s.pass.value;
    NextEffectSound(e, s, run);
    OneMoreEffect(s.log[run.before..], run.todo[0], "", run.start);
  }

  lemma PlainShape(e: Setup, s: System, gone: set<nat>)
    requires Enabled(e, s, Perform(gone))
    requires var eff := s.pass.value.todo[0];
             eff.Send? || eff.Quarantine? || (eff.WriteCheckpoint? && eff.outcome == Refused)
    ensures var run := s.pass.value;
            Do(e, s, Perform(gone))
            == s.(log := s.log + [run.todo[0]], origin := s.origin + [run.cfg],
                  pass := Some(run.(todo := run.todo[1..])))
  {
  }

  /** The system after a checkpoint was persisted. */
  function Written(s: System, run: PassRun): System
    requires run.todo != [] && run.todo[0].WriteCheckpoint?
  {
    var p := run.todo[0].position;
    s.(checkpoint := Some(p), log := s.log + [run.todo[0]], origin := s.origin + [run.cfg],
       pass := Some(run.(todo := run.todo[1..])),
       marks := s.marks + map lsn | lsn in Between(run.base, p.lsn) :: MarkedBy(run.cfg, run.before, |s.log|))
  }

  lemma WriteShape(e: Setup, s: System, gone: set<nat>)
    requires Enabled(e, s, Perform(gone))
    requires s.pass.value.todo[0].WriteCheckpoint? && s.pass.value.todo[0].outcome != Refused
    ensures Do(e, s, Perform(gone)) == Written(s, s.pass.value)
  {
  }

  lemma WriteKeepsInv(e: Setup, s: System, gone: set<nat>)
    requires Enabled(e, s, Perform(gone))
    requires s.pass.value.todo[0].WriteCheckpoint? && s.pass.value.todo[0].outcome != Refused
    requires Inv(e, s)
    ensures Inv(e, Do(e, s, Perform(gone)))
  {
    InvParts(e, s);
    WriteShape(e, s, gone);
    var run := s.pass.value;
    hide Inv, LogOk, TornStarts, MemoryOk, AcksHold, AtLeastOnce, PassOk, Do, Enabled, Apply, Written;
    var s1 := Written(s, run);
    WritesLater(e, s, run);
    WriteKeepsLog(e, s, run);
    WriteKeepsPass(e, s, run);
    MarkedAreDelivered(e, s, run);
    InvParts(e, s1);
  }

  /** A checkpoint about to be written lies behind the persisted one, at a frame boundary of the log. */
  lemma WritesLater(e: Setup, s: System, run: PassRun)
    requires PassOk(e, s, run) && run.todo != [] && run.todo[0].WriteCheckpoint?
    ensures var p := run.todo[0].position;
            && LsnOf(s.checkpoint) < p.lsn && At(e.codec, s.segs, s.hist, p)
            && run.base < p.lsn <= run.base + |run.entries|
            && Handled(run.cfg, run.entries, p.lsn - run.base, s.log[run.before..])
  {
    hide AllSound, At, LastWrite, Handled, Contiguous;
    var p := run.todo[0].position;
    NextEffectSound(e, s, run);
    NextLsnOfEntry(run.entries, run.base, p.lsn - run.base - 1);
  }

  lemma WriteKeepsLog(e: Setup, s: System, run: PassRun)
    requires LogOk(e.codec, s.segs, s.checkpoint, s.hist) && TornStarts(s.segs, s.checkpoint, s.hist)
    requires MemoryOk(s) && AcksHold(e, s) && run.todo != [] && run.todo[0].WriteCheckpoint?
    requires LsnOf(s.checkpoint) < run.todo[0].position.lsn && At(e.codec, s.segs, s.hist, run.todo[0].position)
    ensures var s1 := Written(s, run);
            && LogOk(e.codec, s1.segs, s1.checkpoint, s1.hist) && TornStarts(s1.segs, s1.checkpoint, s1.hist)
            && MemoryOk(s1) && AcksHold(e, s1)
  {
    hide LogOk, AcksHold, TornStarts, At;
    var s1, p := Written(s, run), run.todo[0].position;
    LaterCheckpointKeepsLog(e.codec, s.segs, s.checkpoint, p, s.hist);
    LaterCheckpointKeepsAcks(e, s, Some(p));
    SameAcks(e, s.(checkpoint := Some(p)), s1);
  }

  lemma LaterCheckpointKeepsLog(c: Codec, segs: Log, checkpoint: Option<Position>, p: Position, hist: seq<Record>)
    requires LogOk(c, segs, checkpoint, hist) && TornStarts(segs, checkpoint, hist)
    requires LsnOf(checkpoint) < p.lsn && At(c, segs, hist, p)
    ensures LogOk(c, segs, Some(p), hist) && TornStarts(segs, Some(p), hist)
    ensures checkpoint.Some? ==> checkpoint.value.segment <= p.segment
  {
    hide Runs, TornStarts;
    if checkpoint.Some? { LaterPosition(c, segs, hist, checkpoint.value, p); }
    TornStartsLater(segs, checkpoint, Some(p), hist);
  }

  lemma SameAcks(e: Setup, s: System, s1: System)
    requires s1.acked == s.acked && s1.hist == s.hist && s1.segs == s.segs && s1.checkpoint == s.checkpoint
    ensures AcksHold(e, s) <==> AcksHold(e, s1)
  {
    hide AckHolds;
  }

  lemma WriteKeepsPass(e: Setup, s: System, run: PassRun)
    requires PassOk(e, s, run) && run.todo != []
    requires run.todo[0].WriteCheckpoint? && run.todo[0].outcome != Refused
    requires LsnOf(s.checkpoint) < run.todo[0].position.lsn
    ensures PassOk(e, Written(s, run), run.(todo := run.todo[1..]))
  {
    hide AllSound, At, LastWrite, Sound, Contiguous;
    NextEffectSound(e, s, run);
    OneMoreEffect(s.log[run.before..], run.todo[0], "", run.start);
  }

  lemma NextLsnOfEntry(entries: seq<Entry>, base: nat, n: nat)
    requires Contiguous(entries, base) && n < |entries|
    ensures entries[n].nextPosition.lsn == base + 1 + n
  {
  }

  lemma MarkedAreDelivered(e: Setup, s: System, run: PassRun)
    requires AtLeastOnce(s) && PassOk(e, s, run) && run.todo != [] && run.todo[0].WriteCheckpoint?
    requires var p := run.todo[0].position;
             && run.base < p.lsn <= run.base + |run.entries|
             && Handled(run.cfg, run.entries, p.lsn - run.base, s.log[run.before..])
    ensures AtLeastOnce(Written(s, run))
  {
    hide AllSound, At, LastWrite, Handled, MarkHolds;
    var s1, p, eff := Written(s, run), run.todo[0].position, run.todo[0];
    forall lsn | 1 <= lsn <= p.lsn && lsn <= |s.hist| && lsn !in s.jumped
      ensures lsn in s1.marks && MarkHolds(s1.marks[lsn], s.hist[lsn - 1], s1.log)
    {
      if lsn <= run.base {
        MarkStays(s.marks[lsn], s.hist[lsn - 1], s.log, eff);
      } else {
        MarkedNow(run, s.log, lsn - run.base - 1, p.lsn - run.base);
        MarkStays(s1.marks[lsn], s.hist[lsn - 1], s.log, eff);
      }
    }
  }

  /** Entry n is handled by what the pass has done so far. */
  lemma MarkedNow(run: PassRun, log: Trace, n: nat, m: nat)
    requires run.before <= |log| && Contiguous(run.entries, run.base)
    requires n < m <= |run.entries| && Handled(run.cfg, run.entries, m, log[run.before..])
    ensures MarkHolds(MarkedBy(run.cfg, run.before, |log|), run.entries[n].record, log)
  {
    hide HandledBy, Handled;
    HandledRecord(run.cfg, run.entries, run.base, m, n, log[run.before..]);
    assert log[run.before..|log|] == log[run.before..];
  }

  lemma CoveredBefore(segs: Log, lsn: nat, keepFrom: nat, gone: set<nat>)
    requires gone <= CoveredIds(segs, lsn, keepFrom)
    ensures forall id :: id in gone ==> id < keepFrom
    ensures Ordered(segs) ==> forall k :: 0 <= k < |segs| && segs[k].id in gone ==> MaxLsn(segs[k].recs) <= lsn
  {
  }

  lemma CleanupKeepsAck(c: Codec, segs: Log, p: Position, gone: set<nat>, r: Record, at: Position)
    requires Ordered(segs) && gone <= CoveredIds(segs, p.lsn, p.segment) && AckHolds(c, segs, Some(p), r, at)
    ensures AckHolds(c, Without(segs, gone), Some(p), r, at)
  {
    hide Offset, MaxLsn;
    CoveredBefore(segs, p.lsn, p.segment, gone);
    WithoutMembers(segs, gone);
    var out := Without(segs, gone);
    forall k | 0 <= k < |out| ensures out[k].id !in gone && out[k] in segs { assert out[k] in out; }
    if Stands(c, segs, r, at) {
      if at.segment !in gone {
        WithoutKeepsStanding(c, segs, gone, r, at);
      } else {
        var k, j :| 0 <= k < |segs| && 0 <= j < |segs[k].recs| && segs[k].recs[j] == r
                    && at == Position(r.lsn, segs[k].id, Offset(c, segs[k].recs, j));
        MaxLsnBounds(segs[k].recs);
      }
    }
  }

  lemma CleanupKeepsInv(e: Setup, s: System, gone: set<nat>)
    requires Enabled(e, s, Perform(gone)) && s.pass.value.todo[0].Cleanup? && Inv(e, s)
    ensures Inv(e, Do(e, s, Perform(gone)))
  {
    hide AcksHold, TornStarts, PassOk, LogOk, AtLeastOnce, Without, Inv, CoveredIds, Do, Apply;
    InvParts(e, s);
    var run := s.pass.value;
    var eff := run.todo[0];
    var all := CleanupRemoves(e, s, gone);
    var s1, p := Do(e, s, Perform(gone)), s.checkpoint.value;
    LogIsOrdered(e.codec, s.segs, s.checkpoint, s.hist);
    CoveredBefore(s.segs, p.lsn, p.segment, all);
    WithoutKeepsLog(e.codec, s.segs, s.checkpoint, s.hist, all);
    TornStartsWithout(e.codec, s.segs, s.checkpoint, s.hist, all);
    CleanupKeepsAcks(e, s, all);
    DeliveredGrows(s, eff);
    SameBeside(e, s.(log := s.log + [eff]), s1);
    SameBeside(e, s.(segs := s1.segs), s1);
    CleanupKeepsPass(e, s, s1, all);
    InvParts(e, s1);
  }

  /** A cleanup works with the persisted checkpoint and removes some of the segments it covers. */
  lemma CleanupRemoves(e: Setup, s: System, gone: set<nat>) returns (all: set<nat>)
    requires Enabled(e, s, Perform(gone)) && s.pass.value.todo[0].Cleanup? && Inv(e, s)
    ensures s.checkpoint.Some?
    ensures all <= CoveredIds(s.segs, s.checkpoint.value.lsn, s.checkpoint.value.segment)
    ensures var run := s.pass.value;
            Do(e, s, Perform(gone))
            == s.(segs := Without(s.segs, all), log := s.log + [run.todo[0]], origin := s.origin + [run.cfg],
                  pass := Some(run.(todo := run.todo[1..])))
  {
    hide LogOk, TornStarts, AcksHold, AtLeastOnce, AllSound, LastWrite, CoveredIds, Without, Handled, SendsRun,
         Unplannable;
    var run := s.pass.value;
    var eff := run.todo[0];
    NextEffectSound(e, s, run);
    var covered := CoveredIds(s.segs, eff.upTo, eff.keepFrom);
    all := if eff.outcome == Done then covered else covered * gone;
  }

  lemma CleanupKeepsAcks(e: Setup, s: System, all: set<nat>)
    requires AcksHold(e, s) && s.checkpoint.Some? && Ordered(s.segs)
    requires all <= CoveredIds(s.segs, s.checkpoint.value.lsn, s.checkpoint.value.segment)
    ensures AcksHold(e, s.(segs := Without(s.segs, all)))
  {
    hide AckHolds, Without, CoveredIds, Ordered;
    forall lsn | lsn in s.acked
      ensures AckHolds(e.codec, Without(s.segs, all), s.checkpoint, s.hist[lsn - 1], s.acked[lsn])
    {
      CleanupKeepsAck(e.codec, s.segs, s.checkpoint.value, all, s.hist[lsn - 1], s.acked[lsn]);
    }
  }

  lemma CleanupKeepsPass(e: Setup, s: System, s1: System, all: set<nat>)
    requires LogOk(e.codec, s.segs, s.checkpoint, s.hist) && s.pass.Some? && PassOk(e, s, s.pass.value)
    requires s.pass.value.todo != [] && s.pass.value.todo[0].Cleanup? && s.checkpoint.Some?
    requires forall id :: id in all ==> id < s.checkpoint.value.segment
    requires var run := s.pass.value;
             s1 == s.(segs := Without(s.segs, all), log := s.log + [run.todo[0]], origin := s.origin + [run.cfg],
                      pass := Some(run.(todo := run.todo[1..])))
    ensures PassOk(e, s1, s1.pass.value)
  {
    hide AllSound, At, LastWrite, Runs, Sound, CoveredIds, Without, Contiguous;
    var run, c, p := s.pass.value, e.codec, s.checkpoint.value;
    NextEffectSound(e, s, run);
    OneMoreEffect(s.log[run.before..], run.todo[0], "", run.start);
    forall n | 0 <= n < |run.entries| && p.lsn < run.base + n + 1
      ensures At(c, s1.segs, s.hist, run.entries[n].nextPosition)
    {
      NextLsnOfEntry(run.entries, run.base, n);
      LaterPosition(c, s.segs, s.hist, p, run.entries[n].nextPosition);
      WithoutKeepsAt(c, s.segs, all, s.hist, run.entries[n].nextPosition);
    }
  }
}
