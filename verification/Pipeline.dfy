/** The WAL pipeline as one state machine: writer, crashes, start-up, replay passes, checkpoint and cleanup. */
module Pipeline {
  import opened Bytes
  import opened Wrappers
  import opened FrameCodec
  import opened SegmentCodec
  import opened SegmentFile
  import opened SegmentLog
  import opened WalSpec
  import opened WalFiles
  import opened LogInvariant
  import opened ReplayPlan
  import opened Replay
  import opened ReplayExact

  const REPLAY_BATCH_SIZE := 1024

  /** What does not change over a run. */
  datatype Setup = Setup(codec: Codec, nodeId: seq<byte>, segmentMax: nat, noSync: bool)

  /** The writer's volatile state; its segment id and offset are those of the last segment. */
  datatype Memory = Down | Up(nextLsn: nat, buffered: seq<Record>)

  /** A replay pass under way: what it has read, where its effects start in the log, and the effects to come. */
  datatype PassRun = PassRun(cfg: Config, start: Option<Position>, base: nat, entries: seq<Entry>, before: nat,
                             todo: Trace)

  /** The pass that marked a record: its configuration and the part of the effect log it had written by then. */
  datatype MarkedBy = MarkedBy(cfg: Config, from: nat, upTo: nat)

  /** Disk, memory and, for the record only, the history of the run. */
  datatype System = System(
    segs: Log,
    checkpoint: Option<Position>,
    memory: Memory,
    pass: Option<PassRun>,
    hist: seq<Record>,           // every record that ever became durable
    log: Trace,                  // every effect of every pass
    origin: seq<Config>,         // the configuration of the pass behind each of them
    marks: map<nat, MarkedBy>,   // LSN to the pass that marked it
    jumped: set<nat>,            // LSNs skipped by moving the checkpoint to the tail
    acked: map<nat, Position>)   // LSN to the position reported to the waiting caller

  datatype Op =
    | Append(record: Record)
    | Flush(clock: nat -> u64)
    | FlushFails
    | CrashInFlush(kept: nat, torn: seq<byte>, clock: nat -> u64, extra: seq<(nat, nat)>)
    | Crash
    | StartInterrupted
    | Start(now: nat)
    | Initialize(latest: bool)
    | BeginPass(cfg: Config, world: World, timers: map<string, nat>, latest: bool)
    | Perform(gone: set<nat>)

  function Initial(): System {
    System([], None, Down, None, [], [], [], map[], {}, map[])
  }

  // ---- writer steps ---------------------------------------------------------------------------

  ghost predicate AllEncodable(c: Codec, recs: seq<Record>) {
    forall i :: 0 <= i < |recs| ==> Encodable(c, recs[i])
  }

  function LastPosition(c: Codec, segs: Log): Position
    requires segs != []
  {
    if Last(segs).recs == [] then Position(0, Last(segs).id, SEGMENT_HEADER_LEN) else LastFrame(c, segs)
  }

  /** The position each record of a flush gets. */
  function Placed(c: Codec, segmentMax: nat, segs: Log, recs: seq<Record>, clock: nat -> u64): (ps: seq<Position>)
    requires segs != []
    ensures |ps| == |recs|
  {
    if recs == [] then []
    else
      var out := AppendAll(c, segmentMax, segs, recs, clock);
      Placed(c, segmentMax, segs, recs[..|recs| - 1], clock) + [LastPosition(c, out)]
  }

  /** A crash in the middle of writing record r's frame. */
  function WithTorn(c: Codec, segmentMax: nat, segs: Log, r: Record, now: nat, torn: seq<byte>): (out: Log)
    requires segs != []
    ensures out != []
  {
    if Rotates(c, segmentMax, Last(segs), r) then segs + [NewSegment(Last(segs).id + 1, now, r.lsn).(torn := torn)]
    else Front(segs) + [Last(segs).(torn := torn)]
  }

  /** Segments opened by the flush whose frames were all lost; their headers were synced on creation. */
  function WithEmpty(segs: Log, extra: seq<(nat, nat)>): (out: Log)
    requires segs != []
    ensures out != []
    decreases |extra|
  {
    if extra == [] then segs
    else WithEmpty(segs + [NewSegment(Last(segs).id + 1, extra[0].0, extra[0].1)], extra[1..])
  }

  ghost predicate TornFrom(c: Codec, buffered: seq<Record>, kept: nat, torn: seq<byte>) {
    torn == []
    || (kept < |buffered| && Encodable(c, buffered[kept]) && |torn| < FrameLen(c, buffered[kept])
        && torn == Frame(c, buffered[kept])[..|torn|])
  }

  /** A crash during a flush keeps some whole frames, a proper prefix of the next, and possibly empty segments. */
  function CrashLayout(e: Setup, segs: Log, buffered: seq<Record>, kept: nat, torn: seq<byte>, clock: nat -> u64,
                       extra: seq<(nat, nat)>): (out: Log)
    requires segs != [] && kept <= |buffered| && (torn != [] ==> kept < |buffered|)
    ensures out != []
  {
    var whole := AppendAll(e.codec, e.segmentMax, segs, buffered[..kept], clock);
    WithEmpty(if torn == [] then whole
              else WithTorn(e.codec, e.segmentMax, whole, buffered[kept], clock(buffered[kept].lsn), torn),
              extra)
  }

  // ---- replay steps ---------------------------------------------------------------------------

  /** `read_checkpoint` with `reset_checkpoint`: the start of the pass, and what is persisted afterwards. */
  function ReadCheckpoint(c: Codec, segs: Log, checkpoint: Option<Position>, latest: bool)
    : (Option<Position>, Option<Position>)
  {
    var bounds := BoundsOf(c, segs);
    if checkpoint.Some? && !BeforeFloor(checkpoint.value, bounds) then (checkpoint, checkpoint)
    else if !latest || bounds.tail.None? then (None, checkpoint)
    else (bounds.tail, bounds.tail)
  }

  /** The LSNs above low, up to high. */
  function Between(low: nat, high: nat): (lsns: set<nat>)
    ensures forall lsn :: lsn in lsns <==> low < lsn <= high
  {
    if high <= low then {} else Between(low, high - 1) + {high}
  }

  /** Reading the checkpoint state; a reset may move the persisted checkpoint. */
  function Read(e: Setup, s: System, latest: bool): System {
    var persisted := ReadCheckpoint(e.codec, s.segs, s.checkpoint, latest).1;
    s.(checkpoint := persisted, jumped := s.jumped + Between(LsnOf(s.checkpoint), LsnOf(persisted)))
  }

  function Begin(e: Setup, s: System, op: Op): System
    requires op.BeginPass?
  {
    var start := ReadCheckpoint(e.codec, s.segs, s.checkpoint, op.latest).0;
    var read := Read(e, s, op.latest);
    var entries := Take(EntriesAfter(e.codec, s.segs, start), Some(REPLAY_BATCH_SIZE));
    read.(pass := Some(PassRun(op.cfg, start, LsnOf(read.checkpoint), entries, |s.log|,
                               Pass(op.world, op.cfg, start, op.timers, entries).0.trace)))
  }

  /** One effect takes place. An unfinished cleanup removes any part of what it should. */
  function Apply(s: System, run: PassRun, eff: Effect, gone: set<nat>): System {
    var s1 := s.(log := s.log + [eff], origin := s.origin + [run.cfg],
                 pass := Some(run.(todo := run.todo[if run.todo == [] then 0 else 1..])));
    match eff
    case WriteCheckpoint(p, outcome) =>
      if outcome == Refused then s1
      else
        var lsns := Between(run.base, p.lsn);
        s1.(checkpoint := Some(p), marks := s.marks + map lsn | lsn in lsns :: MarkedBy(run.cfg, run.before, |s.log|))
    case Cleanup(upTo, keepFrom, outcome) =>
      var covered := CoveredIds(s.segs, upTo, keepFrom);
      s1.(segs := Without(s.segs, if outcome == Done then covered else covered * gone))
    case _ => s1
  }

  ghost predicate Enabled(e: Setup, s: System, op: Op) {
    match op
    case Append(_) => s.memory.Up?
    case Flush(_) => s.memory.Up? && s.segs != [] && AllEncodable(e.codec, s.memory.buffered)
    case FlushFails => s.memory.Up?
    case CrashInFlush(kept, torn, _, _) =>
      && s.memory.Up? && s.segs != [] && kept <= |s.memory.buffered|
      && AllEncodable(e.codec, s.memory.buffered[..kept]) && TornFrom(e.codec, s.memory.buffered, kept, torn)
    case Crash => true
    case StartInterrupted =>
      && s.memory.Down? && s.segs != [] && Last(s.segs).id == ActiveId(s.segs, s.checkpoint)
      && FileLen(e.codec, Last(s.segs)) == SEGMENT_HEADER_LEN
    case Start(_) => s.memory.Down?
    case Initialize(_) => s.memory.Up? && s.pass.None?
    case BeginPass(cfg, _, _, _) =>
      && s.memory.Up? && (s.pass.Some? ==> s.pass.value.todo == [])
      && cfg.sinkNames != [] && Distinct(cfg.sinkNames)
    case Perform(_) => s.pass.Some? && s.pass.value.todo != []
  }

  ghost function Do(e: Setup, s: System, op: Op): System
    requires Enabled(e, s, op)
  {
    match op
    case Append(record) =>
      var lsn := s.memory.nextLsn;
      s.(memory := Up(lsn + 1, s.memory.buffered + [record.(lsn := lsn, nodeId := e.nodeId)]))
    case Flush(clock) =>
      var recs := s.memory.buffered;
      var placed := Placed(e.codec, e.segmentMax, s.segs, recs, clock);
      var lsns := Between(|s.hist|, |s.hist| + |recs|);
      s.(segs := AppendAll(e.codec, e.segmentMax, s.segs, recs, clock),
         memory := Up(s.memory.nextLsn, []),
         hist := s.hist + recs,
         acked := if e.noSync then s.acked
                  else s.acked + map lsn | lsn in lsns :: placed[lsn - |s.hist| - 1])
    case FlushFails =>
      if e.noSync || s.memory.buffered == [] then s
      else s.(memory := Up(s.memory.buffered[0].lsn, []))
    case CrashInFlush(kept, torn, clock, extra) =>
      s.(segs := CrashLayout(e, s.segs, s.memory.buffered, kept, torn, clock, extra),
         memory := Down, pass := None, hist := s.hist + s.memory.buffered[..kept])
    case Crash => s.(memory := Down, pass := None)
    case StartInterrupted => s.(segs := Front(s.segs))
    case Start(now) =>
      s.(segs := Restart(e.codec, s.segs, s.checkpoint, now), memory := Up(NextLsn(s.segs, s.checkpoint), []),
         pass := None)
    case Initialize(latest) => Read(e, s, latest)
    case BeginPass(_, _, _, _) => Begin(e, s, op)
    case Perform(gone) => Apply(s, s.pass.value, s.pass.value.todo[0], gone)
  }

  /** A step that cannot be taken changes nothing. */
  ghost function Next(e: Setup, s: System, op: Op): System {
    if Enabled(e, s, op) then Do(e, s, op) else s
  }

  ghost function Run(e: Setup, s: System, ops: seq<Op>): System
    decreases |ops|
  {
    if ops == [] then s else Run(e, Next(e, s, ops[0]), ops[1..])
  }

  // ---- the invariant --------------------------------------------------------------------------

  ghost predicate MemoryOk(s: System) {
    match s.memory
    case Down => true
    case Up(nextLsn, buffered) =>
      && Appendable(s.segs, |s.hist| + 1)
      && nextLsn == |s.hist| + |buffered| + 1
      && forall i :: 0 <= i < |buffered| ==> buffered[i].lsn == |s.hist| + 1 + i
  }

  /** An acknowledged record is where its caller was told, or its segment went while the checkpoint covered it. */
  ghost predicate AckHolds(c: Codec, segs: Log, checkpoint: Option<Position>, r: Record, p: Position) {
    || Stands(c, segs, r, p)
    || (&& checkpoint.Some? && r.lsn <= checkpoint.value.lsn && p.segment < checkpoint.value.segment
        && forall k :: 0 <= k < |segs| ==> segs[k].id != p.segment)
  }

  ghost predicate AcksHold(e: Setup, s: System) {
    forall lsn :: lsn in s.acked ==>
      1 <= lsn <= |s.hist| && AckHolds(e.codec, s.segs, s.checkpoint, s.hist[lsn - 1], s.acked[lsn])
  }

  /** The events a record emits for a sink under a configuration. */
  function RecordEvents(cfg: Config, r: Record, sink: string): seq<SinkEvent> {
    match Plan(cfg, r)
    case Failure(_) => []
    case Success(deliveries) =>
      var events := EventsFor(deliveries, sink);
      seq(|events|, i requires 0 <= i < |events| => SinkEvent(r.nodeId, r.lsn, events[i]))
  }

  /** Under cfg the record was quarantined, or every event it emits was accepted, as often as it is emitted. */
  ghost predicate HandledBy(cfg: Config, r: Record, log: Trace) {
    if Plan(cfg, r).Failure? then r.lsn in Quarantined(log)
    else forall sink :: sink in cfg.sinkNames ==> multiset(RecordEvents(cfg, r, sink)) <= multiset(Accepted(log, sink))
  }

  /** The marking pass itself handled the record before it marked it. */
  ghost predicate MarkHolds(m: MarkedBy, r: Record, log: Trace) {
    m.from <= m.upTo <= |log| && HandledBy(m.cfg, r, log[m.from..m.upTo])
  }

  /** At-least-once: what the checkpoint covers was handled by the pass that marked it, or jumped over. */
  ghost predicate AtLeastOnce(s: System) {
    forall lsn :: 1 <= lsn <= LsnOf(s.checkpoint) && lsn <= |s.hist| ==>
      || lsn in s.jumped
      || (lsn in s.marks && MarkHolds(s.marks[lsn], s.hist[lsn - 1], s.log))
  }

  /** A pass under way agrees with the log it reads, and its remaining effects are sound. */
  ghost predicate PassOk(e: Setup, s: System, run: PassRun) {
    && s.memory.Up? && Distinct(run.cfg.sinkNames)
    && run.before <= |s.log|
    && run.base <= LsnOf(s.checkpoint) && (run.start.Some? ==> run.start.value.lsn == run.base)
    && run.base + |run.entries| <= |s.hist| && Contiguous(run.entries, run.base)
    && (forall n :: 0 <= n < |run.entries| ==>
          run.entries[n].record == s.hist[run.base + n] && run.entries[n].nextPosition.offset > SEGMENT_HEADER_LEN)
    && (forall n :: 0 <= n < |run.entries| && LsnOf(s.checkpoint) < run.base + n + 1 ==>
          At(e.codec, s.segs, s.hist, run.entries[n].nextPosition))
    && AllSound(run.cfg, run.entries, run.base, run.start, s.log[run.before..] + run.todo)
    && (match LastWrite(s.log[run.before..], run.start)
        case None => LsnOf(s.checkpoint) == run.base
        case Some(p) => s.checkpoint == Some(p))
  }

  ghost predicate Inv(e: Setup, s: System) {
    && LogOk(e.codec, s.segs, s.checkpoint, s.hist)
    && TornStarts(s.segs, s.checkpoint, s.hist)
    && MemoryOk(s)
    && AcksHold(e, s)
    && AtLeastOnce(s)
    && (s.pass.Some? ==> PassOk(e, s, s.pass.value))
  }
}
