/** When a pass puts its tail off, and whether passes that follow each other ever stop doing so: src/wal/replay.rs. */
module TailDeferral {
  import opened Bytes
  import opened Wrappers
  import opened FrameCodec
  import opened SegmentFile
  import opened ReplayPlan
  import opened SinkBatching
  import opened Replay
  import opened ReplayExact
  import opened ReplayTheorems

  // ---- what can be told from the entries before a pass ----------------------------------------

  /** The window that is left when the entries are through: the only one that may be put off. */
  function TailWindow(cfg: Config, entries: seq<Entry>, window: Window): (tail: Window)
    ensures |tail| <= |window| + |entries|
    decreases |entries|
  {
    if entries == [] then window
    else
      match Plan(cfg, entries[0].record)
      case Failure(_) => TailWindow(cfg, entries[1..], [])
      case Success(deliveries) =>
        var more := window + [Planned(entries[0], deliveries)];
        TailWindow(cfg, entries[1..], if ReachesLimit(cfg, more) then [] else more)
  }

  /** The sinks that the pass sends to before its tail: before a quarantined record or when a window is full. */
  function Forced(cfg: Config, entries: seq<Entry>, window: Window): set<string>
    decreases |entries|
  {
    if entries == [] then {}
    else
      match Plan(cfg, entries[0].record)
      case Failure(_) => Busy(cfg.sinkNames, window, None) + Forced(cfg, entries[1..], [])
      case Success(deliveries) =>
        var more := window + [Planned(entries[0], deliveries)];
        if ReachesLimit(cfg, more) then Busy(cfg.sinkNames, more, None) + Forced(cfg, entries[1..], [])
        else Forced(cfg, entries[1..], more)
  }

  predicate Below(cfg: Config, records: nat, bytes: nat) {
    records < AtLeastOne(cfg.flushRecords) && bytes < AtLeastOne(cfg.flushBytes)
  }

  /** No flush before the tail finds the checkpoint policy reached, when so much is pending at first. */
  predicate Quiet(cfg: Config, entries: seq<Entry>, window: Window, records: nat, bytes: nat)
    decreases |entries|
  {
    if entries == [] then true
    else
      match Plan(cfg, entries[0].record)
      case Failure(_) =>
        var r, b := records + |window|, bytes + SumBytes(window);
        (window == [] || Below(cfg, r, b)) && Quiet(cfg, entries[1..], [], r + 1, b + EntryBytes(entries[0]))
      case Success(deliveries) =>
        var more := window + [Planned(entries[0], deliveries)];
        var r, b := records + |more|, bytes + SumBytes(more);
        if ReachesLimit(cfg, more) then Below(cfg, r, b) && Quiet(cfg, entries[1..], [], r, b)
        else Quiet(cfg, entries[1..], more, records, bytes)
  }

  /** The tail has events, each of its sinks is below its limits, and each has been sent to before the tail. */
  predicate Starved(cfg: Config, entries: seq<Entry>) {
    var tail := TailWindow(cfg, entries, []);
    var busy := Busy(cfg.sinkNames, tail, None);
    busy != {} && forall s :: s in busy ==>
      s in Forced(cfg, entries, []) && !Full(PolicyOf(cfg, s), WindowEvents(tail, None, s))
  }

  // ---- one flush ------------------------------------------------------------------------------

  /** No checkpoint has been written in this trace. */
  ghost predicate Unwritten(trace: Trace) {
    LastWrite(trace, None).None?
  }

  lemma {:induction false} UnwrittenKeepsStart(trace: Trace, start: Option<Position>)
    requires Unwritten(trace)
    ensures LastWrite(trace, start) == start
  {
    if trace != [] { UnwrittenKeepsStart(trace[..|trace| - 1], start); }
  }

  /** A pass shorter than the interval at which checkpoints are due. */
  ghost predicate Brief(cfg: Config, w: World) {
    forall k :: w.clock(k) < w.clock(0) + AtLeastOne(cfg.flushInterval)
  }

  /** The window holds the records right before the entries; checkpoint and pending position lie before both. */
  ghost predicate Ready(rs: State, window: Window, entries: seq<Entry>, base: nat) {
    && Contiguous(entries, base) && |window| <= base
    && (forall i :: 0 <= i < |window| ==>
          && window[i].entry.position.lsn == base - |window| + 1 + i
          && window[i].entry.nextPosition.lsn == base - |window| + 1 + i)
    && (rs.checkpoint.Some? ==> rs.checkpoint.value.lsn <= base - |window|)
    && (rs.pending.Some? ==> rs.pending.value.lsn <= base - |window|)
  }

  lemma UncoveredBusy(names: seq<string>, window: Window, checkpoint: Option<Position>)
    requires NoneCovered(checkpoint, window)
    ensures Busy(names, window, checkpoint) == Busy(names, window, None)
  {
    hide WindowEvents;
    forall s ensures WindowEvents(window, checkpoint, s) == WindowEvents(window, None, s) {
      UncoveredEvents(window, checkpoint, s);
    }
  }

  lemma {:induction false} UncoveredDefer(cfg: Config, names: seq<string>, window: Window, checkpoint: Option<Position>,
                                          timers: map<string, nat>, now: nat, some: bool)
    requires NoneCovered(checkpoint, window)
    ensures Defer(cfg, names, window, checkpoint, timers, now, some)
            == Defer(cfg, names, window, None, timers, now, some)
    decreases |names|
  {
    hide WindowEvents, Full, Started, PolicyOf;
    if names != [] {
      UncoveredEvents(window, checkpoint, names[0]);
      UncoveredDefer(cfg, names[1..], window, checkpoint, timers, now, some);
      UncoveredDefer(cfg, names[1..], window, checkpoint, Started(timers, names[0], now), now, true);
    }
  }

  /** Settling with nothing failing persists what is pending. */
  lemma SettleWrites(w: World, rs: State)
    requires AllDone(w) && rs.pending.Some?
    ensures var (out, ok) := Settle(w, rs);
            && ok && out.checkpoint == rs.pending && out.pending.None? && out.timers == rs.timers
            && !Unwritten(out.trace)
  {
    hide LastWrite;
    var e := WriteCheckpoint(rs.pending.value, w.outcome(|rs.trace|));
    OneMoreEffect(rs.trace, e, "", None);
    var flushed := FlushPending(w, rs).0;
    OneMoreEffect(flushed.trace, Cleanup(rs.pending.value.lsn, rs.pending.value.segment, w.outcome(|flushed.trace|)),
                  "", None);
  }

  /** A forced flush with nothing failing: it clears the timers of the sinks it sends to, and it either settles or
      leaves the books with the window's entries added. */
  lemma ForcedFlush(w: World, cfg: Config, rs: State, window: Window, entries: seq<Entry>, base: nat)
    requires AllDone(w) && cfg.hasRuntimeState && Distinct(cfg.sinkNames) && window != []
             && Ready(rs, window, entries, base)
    ensures var (out, result) := FlushWindow(w, cfg, rs, window, false);
            && result.Flushed? && out.timers == rs.timers - Busy(cfg.sinkNames, window, None)
            && Ready(out, [], entries, base)
            && (Unwritten(out.trace) ==> Unwritten(rs.trace))
            && (Brief(cfg, w) && rs.lastFlush == w.clock(0) && Unwritten(rs.trace) ==>
                  if Below(cfg, rs.pendingRecords + |window|, rs.pendingBytes + SumBytes(window))
                  then
                    && Unwritten(out.trace) && out.lastFlush == rs.lastFlush
                    && out.pendingRecords == rs.pendingRecords + |window|
                    && out.pendingBytes == rs.pendingBytes + SumBytes(window)
                  else !Unwritten(out.trace))
  {
    hide FlushSinks, WindowEvents, LastWrite, Settle, Busy, EntryBytes, SumBytes, MarkWindow, Contiguous;
    var (sent, issue) := FlushSinks(w, cfg, cfg.sinkNames, window, rs.checkpoint, rs.trace);
    FlushSinksSucceeds(w, cfg, cfg.sinkNames, window, rs.checkpoint, rs.trace);
    FlushSinksAccepts(w, cfg, cfg.sinkNames, window, rs.checkpoint, rs.trace, "");
    assert LastWrite(sent, None) == LastWrite(rs.trace, None);
    UncoveredBusy(cfg.sinkNames, window, rs.checkpoint);
    var ready := rs.(trace := sent, timers := rs.timers - Busy(cfg.sinkNames, window, rs.checkpoint));
    MarkWindowCounts(ready, window);
    var marked := MarkWindow(ready, window);
    SettleWrites(w, marked.(ticks := marked.ticks + 1));
  }

  // ---- a pass ---------------------------------------------------------------------------------

  /** The end of a pass: the tail is put off by its sinks' limits and by the timers that the forced flushes left. */
  lemma TailDecides(w: World, cfg: Config, rs: State, window: Window, base: nat, count: nat, expected: Option<nat>)
    returns (k: nat)
    requires AllDone(w) && cfg.hasRuntimeState && Distinct(cfg.sinkNames) && Ready(rs, window, [], base)
    ensures var (out, result) := PassFrom(w, cfg, rs, [], window, expected, count);
            var (deferred, timers) := Defer(cfg, cfg.sinkNames, window, None, rs.timers, w.clock(k), false);
            && result.PutOff? == deferred && (deferred ==> out.timers == timers && out.trace == rs.trace)
  {
    hide FlushSinks, Finish, Settle, WindowEvents, Contiguous, Defer;
    k := rs.ticks;
    UncoveredDefer(cfg, cfg.sinkNames, window, rs.checkpoint, rs.timers, w.clock(k), false);
    FlushWindowSucceeds(w, cfg, rs, window, true);
    FlushSinksSucceeds(w, cfg, cfg.sinkNames, window, rs.checkpoint, rs.trace);
    FlushWindowUndeferred(w, cfg, rs, window);
    if window == [] { NothingToDefer(cfg, rs.timers, w.clock(k)); }
  }

  lemma FlushWindowUndeferred(w: World, cfg: Config, rs: State, window: Window)
    ensures var result := FlushWindow(w, cfg, rs, window, true).1;
            result.Deferred? ==> window != [] && TryDefer(w, cfg, rs, window, true).0
    ensures window != [] && TryDefer(w, cfg, rs, window, true).0 ==>
              FlushWindow(w, cfg, rs, window, true) == (TryDefer(w, cfg, rs, window, true).1, Deferred)
  {
    hide FlushSinks, Settle, Defer, MarkWindow, ShouldFlush;
  }

  lemma NothingToDefer(cfg: Config, timers: map<string, nat>, now: nat)
    requires Distinct(cfg.sinkNames)
    ensures !Defer(cfg, cfg.sinkNames, [], None, timers, now, false).0
  {
    DeferIsExact(cfg, cfg.sinkNames, [], None, timers, now, false);
  }

  lemma QuarantineIsReady(rs: State, e: Entry, entries: seq<Entry>, base: nat)
    requires entries != [] && entries[0] == e && Ready(rs, [], entries, base)
    ensures Ready(QuarantineEntry(rs, e), [], entries[1..], base + 1)
    ensures Unwritten(QuarantineEntry(rs, e).trace) == Unwritten(rs.trace)
  {
    hide LastWrite, EntryBytes;
    OneMoreEffect(rs.trace, Quarantine(e.position.lsn), "", None);
    assert forall i :: 0 <= i < |entries| - 1 ==> entries[1..][i] == entries[i + 1];
  }

  lemma WindowIsReady(rs: State, window: Window, p: Planned, entries: seq<Entry>, base: nat)
    requires entries != [] && entries[0] == p.entry && Ready(rs, window, entries, base)
    ensures Ready(rs, window + [p], entries[1..], base + 1)
  {
    assert forall i :: 0 <= i < |entries| - 1 ==> entries[1..][i] == entries[i + 1];
  }

  lemma TimersTwice(timers: map<string, nat>, a: set<string>, b: set<string>)
    ensures (timers - a) - b == timers - (a + b)
  {
  }

  /** What a pass with nothing failing does with its tail, and whether it persists anything when it puts the tail off,
      is decided by the entries, the timers and the clock. */
  lemma {:induction false} PassDecides(w: World, cfg: Config, rs: State, entries: seq<Entry>, window: Window, base: nat,
                                       expected: Option<nat>, count: nat) returns (k: nat)
    requires AllDone(w) && cfg.hasRuntimeState && Distinct(cfg.sinkNames) && OnlyQuarantines(cfg, entries)
    requires Ready(rs, window, entries, base) && (expected.None? || expected == Some(base + 1))
    ensures var (out, result) := PassFrom(w, cfg, rs, entries, window, expected, count);
            var (deferred, timers) := Defer(cfg, cfg.sinkNames, TailWindow(cfg, entries, window), None,
                                            rs.timers - Forced(cfg, entries, window), w.clock(k), false);
            && result.PutOff? == deferred
            && (deferred ==>
                  && out.timers == timers && (Unwritten(out.trace) ==> Unwritten(rs.trace))
                  && (Brief(cfg, w) && rs.lastFlush == w.clock(0) && Unwritten(rs.trace) ==>
                        (Unwritten(out.trace) <==> Quiet(cfg, entries, window, rs.pendingRecords, rs.pendingBytes))))
    decreases |entries|
  {
    hide FlushWindow, Settle, ReachesLimit, Plan, Ready, Defer, Unwritten, Brief, Busy, AllDone, EntryBytes, SumBytes,
         Below, OnlyQuarantines, Distinct;
    if entries == [] {
      k := TailDecides(w, cfg, rs, window, base, count, expected);
      assert rs.timers - {} == rs.timers;
    } else {
      var e, rest := entries[0], entries[1..];
      FirstOfReady(cfg, rs, window, entries, base);
      var next := Some(e.position.lsn + 1);
      match Plan(cfg, e.record) {
        case Failure(issue) =>
          var rs1 := FlushWindow(w, cfg, rs, window, false).0;
          EmptyFlush(w, cfg, rs, window);
          if window != [] { ForcedFlush(w, cfg, rs, window, entries, base); }
          QuarantineIsReady(rs1, e, entries, base);
          QuarantineBooks(rs1, e);
          k := PassDecides(w, cfg, QuarantineEntry(rs1, e), rest, [], base + 1, next, count + 1);
          TimersTwice(rs.timers, Busy(cfg.sinkNames, window, None), Forced(cfg, rest, []));
        case Success(deliveries) =>
          var more := window + [Planned(e, deliveries)];
          WindowIsReady(rs, window, Planned(e, deliveries), entries, base);
          if ReachesLimit(cfg, more) {
            var rs1 := FlushWindow(w, cfg, rs, more, false).0;
            ForcedFlush(w, cfg, rs, more, rest, base + 1);
            k := PassDecides(w, cfg, rs1, rest, [], base + 1, next, count + 1);
            TimersTwice(rs.timers, Busy(cfg.sinkNames, more, None), Forced(cfg, rest, []));
          } else {
            k := PassDecides(w, cfg, rs, rest, more, base + 1, next, count + 1);
          }
      }
    }
  }

  lemma FirstOfReady(cfg: Config, rs: State, window: Window, entries: seq<Entry>, base: nat)
    requires entries != [] && Ready(rs, window, entries, base) && OnlyQuarantines(cfg, entries)
    ensures entries[0].position.lsn == base + 1
    ensures Plan(cfg, entries[0].record).Failure? ==> Plan(cfg, entries[0].record).error.Action() == QuarantineRecord
    ensures OnlyQuarantines(cfg, entries[1..])
  {
    hide Plan;
    assert forall i :: 0 <= i < |entries| - 1 ==> entries[1..][i] == entries[i + 1];
  }

  lemma EmptyFlush(w: World, cfg: Config, rs: State, window: Window)
    ensures window == [] ==> FlushWindow(w, cfg, rs, window, false) == (rs, Flushed)
    ensures window == [] ==> Busy(cfg.sinkNames, window, None) == {} && SumBytes(window) == 0
    ensures rs.timers - {} == rs.timers
  {
  }

  lemma QuarantineBooks(rs: State, e: Entry)
    ensures var out := QuarantineEntry(rs, e);
            && out.timers == rs.timers && out.lastFlush == rs.lastFlush
            && out.pendingRecords == rs.pendingRecords + 1 && out.pendingBytes == rs.pendingBytes + EntryBytes(e)
  {
  }

  // ---- one pass: exactly when the tail is put off ---------------------------------------------

  /** Are these timers such that, at this moment, no sink of the tail has to be sent to? */
  ghost predicate Waits(cfg: Config, entries: seq<Entry>, timers: map<string, nat>, now: nat) {
    var tail, left := TailWindow(cfg, entries, []), timers - Forced(cfg, entries, []);
    && Busy(cfg.sinkNames, tail, None) != {}
    && forall s :: s in cfg.sinkNames ==> Patient(cfg, tail, None, left, now, s)
  }

  /** A pass with nothing failing puts its tail off if and only if the tail has events and each of its sinks is below
      its limits and has a timeout that has not passed, where the timers of the sinks that the pass sends to before the
      tail start anew. If it puts the tail off it persists nothing exactly if no flush before the tail finds the
      checkpoint policy reached. */
  lemma PassPutsOffExactlyWhen(w: World, cfg: Config, start: Option<Position>, timers: map<string, nat>,
                               entries: seq<Entry>, base: nat) returns (k: nat)
    requires AllDone(w) && cfg.hasRuntimeState && Distinct(cfg.sinkNames) && OnlyQuarantines(cfg, entries)
    requires Contiguous(entries, base) && (start.Some? ==> start.value.lsn == base)
    ensures var (out, result) := Pass(w, cfg, start, timers, entries);
            && (result.PutOff? <==> Waits(cfg, entries, timers, w.clock(k)))
            && (result.PutOff? && Brief(cfg, w) ==> (Unwritten(out.trace) <==> Quiet(cfg, entries, [], 0, 0)))
            && (result.PutOff? ==>
                  out.timers == Defer(cfg, cfg.sinkNames, TailWindow(cfg, entries, []), None,
                                      timers - Forced(cfg, entries, []), w.clock(k), false).1)
  {
    hide PassFrom, Defer, Quiet, TailWindow, Forced, Patient, Busy;
    k := PassDecides(w, cfg, StartState(w, start, timers), entries, [], base,
                     if start.Some? then Some(start.value.lsn + 1) else None, 0);
    DeferIsExact(cfg, cfg.sinkNames, TailWindow(cfg, entries, []), None, timers - Forced(cfg, entries, []), w.clock(k),
                 false);
  }

  // ---- passes that follow each other ----------------------------------------------------------

  /** A pass: what the outside world answers, and the entries it reads. */
  datatype Round = Round(world: World, entries: seq<Entry>)

  /** The timers after passes that all put their tail off and persist nothing, so that each starts where the one before
      it did; None if one of them does not. */
  function Rounds(cfg: Config, start: Option<Position>, timers: map<string, nat>, rounds: seq<Round>)
    : Option<map<string, nat>>
    decreases |rounds|
  {
    if rounds == [] then Some(timers)
    else
      var (out, result) := Pass(rounds[0].world, cfg, start, timers, rounds[0].entries);
      if result.PutOff? && LastWrite(out.trace, None).None? then Rounds(cfg, start, out.timers, rounds[1..]) else None
  }

  /** Passes over the same entries with nothing failing, each short, in the order of time. */
  ghost predicate Repeats(cfg: Config, entries: seq<Entry>, rounds: seq<Round>) {
    && (forall i :: 0 <= i < |rounds| ==>
          rounds[i].entries == entries && AllDone(rounds[i].world) && Brief(cfg, rounds[i].world))
    && (forall i, j, k, l :: 0 <= i < j < |rounds| ==> rounds[i].world.clock(k) <= rounds[j].world.clock(l))
  }

  /** A starved tail is put off whatever the timers and the time. */
  lemma StarvedWaits(cfg: Config, entries: seq<Entry>, timers: map<string, nat>, now: nat)
    requires Starved(cfg, entries)
    ensures Waits(cfg, entries, timers, now)
  {
    hide WindowEvents, BytesOf, TailWindow, Forced;
    var tail, left := TailWindow(cfg, entries, []), timers - Forced(cfg, entries, []);
    forall s | s in cfg.sinkNames ensures Patient(cfg, tail, None, left, now, s) {
      if WindowEvents(tail, None, s) != [] {
        assert s in Busy(cfg.sinkNames, tail, None);
        assert s in Forced(cfg, entries, []) && s !in left;
      }
    }
  }

  lemma {:induction false} StarvedRounds(cfg: Config, start: Option<Position>, timers: map<string, nat>,
                                         entries: seq<Entry>, base: nat, rounds: seq<Round>)
    requires cfg.hasRuntimeState && Distinct(cfg.sinkNames) && OnlyQuarantines(cfg, entries)
    requires Contiguous(entries, base) && (start.Some? ==> start.value.lsn == base)
    requires Starved(cfg, entries) && Quiet(cfg, entries, [], 0, 0) && Repeats(cfg, entries, rounds)
    ensures Rounds(cfg, start, timers, rounds).Some?
    decreases |rounds|
  {
    hide Pass, Starved, Quiet, Waits, OnlyQuarantines, Contiguous, AllDone, Brief, Distinct;
    if rounds != [] {
      var w := rounds[0].world;
      var k := PassPutsOffExactlyWhen(w, cfg, start, timers, entries, base);
      StarvedWaits(cfg, entries, timers, w.clock(k));
      LaterRounds(cfg, entries, rounds);
      StarvedRounds(cfg, start, Pass(w, cfg, start, timers, entries).0.timers, entries, base, rounds[1..]);
    }
  }

  lemma LaterRounds(cfg: Config, entries: seq<Entry>, rounds: seq<Round>)
    requires rounds != [] && Repeats(cfg, entries, rounds)
    ensures Repeats(cfg, entries, rounds[1..])
  {
    hide AllDone, Brief;
    var rest := rounds[1..];
    assert forall i :: 0 <= i < |rest| ==> rest[i] == rounds[i + 1];
  }

  /** Nothing fails and the clock stands still. */
  function Still(now: nat): World {
    World(_ => Done, _ => now)
  }

  /** When the sink's timer is over, if it does not start before the first pass. */
  function Deadline(cfg: Config, timers: map<string, nat>, sink: string): nat {
    (if sink in timers then timers[sink] else 0) + PolicyOf(cfg, sink).timeout
  }

  /** Two passes, the second this much later, are enough for a tail that is not starved. */
  lemma UnstarvedRoundsEnd(cfg: Config, start: Option<Position>, timers: map<string, nat>, entries: seq<Entry>,
                           base: nat, sink: string)
    requires cfg.hasRuntimeState && Distinct(cfg.sinkNames) && OnlyQuarantines(cfg, entries)
    requires Contiguous(entries, base) && (start.Some? ==> start.value.lsn == base)
    requires sink in Busy(cfg.sinkNames, TailWindow(cfg, entries, []), None)
    requires sink !in Forced(cfg, entries, [])
             || Full(PolicyOf(cfg, sink), WindowEvents(TailWindow(cfg, entries, []), None, sink))
    ensures var rounds := [Round(Still(0), entries), Round(Still(Deadline(cfg, timers, sink)), entries)];
            Repeats(cfg, entries, rounds) && Rounds(cfg, start, timers, rounds).None?
  {
    hide Pass, Waits, OnlyQuarantines, Contiguous, Distinct, TailWindow, Forced, WindowEvents, Full, PolicyOf, Defer,
         Busy;
    var late := Deadline(cfg, timers, sink);
    var rounds := [Round(Still(0), entries), Round(Still(late), entries)];
    assert rounds[1..] == [rounds[1]] && rounds[1..][1..] == [];
    var k := PassPutsOffExactlyWhen(Still(0), cfg, start, timers, entries, base);
    var out := Pass(Still(0), cfg, start, timers, entries).0;
    if Pass(Still(0), cfg, start, timers, entries).1.PutOff? {
      SinkTimerRuns(cfg, entries, timers, 0, sink);
      var l := PassPutsOffExactlyWhen(Still(late), cfg, start, out.timers, entries, base);
      SinkHasWaited(cfg, entries, out.timers, late, sink);
    }
  }

  /** A sink that waits is not full, and its timer is running from now on at the latest. */
  lemma SinkTimerRuns(cfg: Config, entries: seq<Entry>, timers: map<string, nat>, now: nat, sink: string)
    requires Distinct(cfg.sinkNames) && sink in Busy(cfg.sinkNames, TailWindow(cfg, entries, []), None)
    requires Waits(cfg, entries, timers, now)
    ensures !Full(PolicyOf(cfg, sink), WindowEvents(TailWindow(cfg, entries, []), None, sink))
    ensures var left := timers - Forced(cfg, entries, []);
            var out := Defer(cfg, cfg.sinkNames, TailWindow(cfg, entries, []), None, left, now, false).1;
            && sink in out && out[sink] == (if sink in left then left[sink] else now)
            && forall s :: s in left ==> s in out && out[s] == left[s]
  {
    hide TailWindow, Forced, WindowEvents, Full;
    var tail, left := TailWindow(cfg, entries, []), timers - Forced(cfg, entries, []);
    DeferIsExact(cfg, cfg.sinkNames, tail, None, left, now, false);
  }

  /** A sink whose timer is over ends the waiting, unless the pass sends to it before the tail. */
  lemma SinkHasWaited(cfg: Config, entries: seq<Entry>, timers: map<string, nat>, now: nat, sink: string)
    requires sink in Busy(cfg.sinkNames, TailWindow(cfg, entries, []), None)
    requires sink in timers && sink !in Forced(cfg, entries, []) && now >= timers[sink] + PolicyOf(cfg, sink).timeout
    ensures !Waits(cfg, entries, timers, now)
  {
    hide TailWindow, Forced, WindowEvents, Full;
    assert !Patient(cfg, TailWindow(cfg, entries, []), None, timers - Forced(cfg, entries, []), now, sink);
  }

  /** A backlog to which nothing is added is put off for ever, with nothing persisted, if and only if its tail is
      starved by the forced flushes before it and these do not reach the checkpoint policy. */
  lemma PutOffForeverExactlyWhen(cfg: Config, start: Option<Position>, timers: map<string, nat>, entries: seq<Entry>,
                                 base: nat)
    requires cfg.hasRuntimeState && Distinct(cfg.sinkNames) && OnlyQuarantines(cfg, entries)
    requires Contiguous(entries, base) && (start.Some? ==> start.value.lsn == base)
    ensures (forall rounds | Repeats(cfg, entries, rounds) :: Rounds(cfg, start, timers, rounds).Some?)
       <==> Starved(cfg, entries) && Quiet(cfg, entries, [], 0, 0)
  {
    hide Rounds, Repeats, Quiet, OnlyQuarantines, Contiguous, Distinct, Busy, TailWindow, Forced, WindowEvents, Full,
         PolicyOf;
    if Starved(cfg, entries) && Quiet(cfg, entries, [], 0, 0) {
      forall rounds | Repeats(cfg, entries, rounds) ensures Rounds(cfg, start, timers, rounds).Some? {
        StarvedRounds(cfg, start, timers, entries, base, rounds);
      }
    } else {
      OneRoundEnds(cfg, start, timers, entries, base);
      if Busy(cfg.sinkNames, TailWindow(cfg, entries, []), None) != {} && !Starved(cfg, entries) {
        var sink :| sink in Busy(cfg.sinkNames, TailWindow(cfg, entries, []), None)
                    && (sink !in Forced(cfg, entries, [])
                        || Full(PolicyOf(cfg, sink), WindowEvents(TailWindow(cfg, entries, []), None, sink)));
        UnstarvedRoundsEnd(cfg, start, timers, entries, base, sink);
      }
    }
  }

  /** One pass is enough if the tail has no events or the checkpoint policy is reached before it. */
  lemma OneRoundEnds(cfg: Config, start: Option<Position>, timers: map<string, nat>, entries: seq<Entry>, base: nat)
    requires cfg.hasRuntimeState && Distinct(cfg.sinkNames) && OnlyQuarantines(cfg, entries)
    requires Contiguous(entries, base) && (start.Some? ==> start.value.lsn == base)
    ensures var rounds := [Round(Still(0), entries)];
            && Repeats(cfg, entries, rounds)
            && (!Quiet(cfg, entries, [], 0, 0) || Busy(cfg.sinkNames, TailWindow(cfg, entries, []), None) == {} ==>
                  Rounds(cfg, start, timers, rounds).None?)
  {
    hide Pass, Quiet, OnlyQuarantines, Contiguous, Distinct, Busy, TailWindow, Forced, Patient;
    assert [Round(Still(0), entries)][1..] == [];
    var k := PassPutsOffExactlyWhen(Still(0), cfg, start, timers, entries, base);
  }

  // ---- progress -------------------------------------------------------------------------------

  /** The tail of these entries has events for the sink, and the pass does not send to the sink before. */
  ghost predicate OnlyInTail(cfg: Config, entries: seq<Entry>, sink: string) {
    sink in Busy(cfg.sinkNames, TailWindow(cfg, entries, []), None) && sink !in Forced(cfg, entries, [])
  }

  /** The entries of a pass that starts behind `base`, and nothing fails. */
  ghost predicate Sane(cfg: Config, base: nat, round: Round) {
    AllDone(round.world) && OnlyQuarantines(cfg, round.entries) && Contiguous(round.entries, base)
  }

  lemma {:induction false} TimerPersists(cfg: Config, start: Option<Position>, timers: map<string, nat>, base: nat,
                                         rounds: seq<Round>, sink: string)
    requires cfg.hasRuntimeState && Distinct(cfg.sinkNames) && (start.Some? ==> start.value.lsn == base)
    requires forall i :: 0 <= i < |rounds| ==> Sane(cfg, base, rounds[i]) && OnlyInTail(cfg, rounds[i].entries, sink)
    requires Rounds(cfg, start, timers, rounds).Some? && sink in timers
    ensures var out := Rounds(cfg, start, timers, rounds).value;
            sink in out && out[sink] == timers[sink]
    decreases |rounds|
  {
    hide Pass, Waits, TailWindow, Forced, Distinct, Busy, Defer, OnlyQuarantines, Contiguous, AllDone;
    if rounds != [] {
      var r, rest := rounds[0], rounds[1..];
      assert forall i :: 0 <= i < |rest| ==> rest[i] == rounds[i + 1];
      var k := PassPutsOffExactlyWhen(r.world, cfg, start, timers, r.entries, base);
      SinkTimerRuns(cfg, r.entries, timers, r.world.clock(k), sink);
      TimerPersists(cfg, start, Pass(r.world, cfg, start, timers, r.entries).0.timers, base, rest, sink);
    }
  }

  /** Bounded deferral of passes: while a sink has events in the tail of every pass and none before it, passes that put
      their tails off end at the latest with the first one that looks at the clock the sink's timeout after the first
      of them. That pass handles everything it reads and persists the checkpoint behind it. New entries may keep
      arriving. */
  lemma PassesStopPuttingOff(cfg: Config, start: Option<Position>, timers: map<string, nat>, base: nat,
                             rounds: seq<Round>, last: Round, sink: string, first: nat)
    requires cfg.hasRuntimeState && Distinct(cfg.sinkNames) && (start.Some? ==> start.value.lsn == base)
    requires forall i :: 0 <= i < |rounds| ==> Sane(cfg, base, rounds[i]) && OnlyInTail(cfg, rounds[i].entries, sink)
    requires Sane(cfg, base, last) && OnlyInTail(cfg, last.entries, sink)
    requires rounds != [] && Rounds(cfg, start, timers, rounds).Some?
    requires (sink in timers ==> timers[sink] <= first) && forall k :: rounds[0].world.clock(k) <= first
    requires forall k :: last.world.clock(k) >= first + PolicyOf(cfg, sink).timeout
    ensures var (out, result) := Pass(last.world, cfg, start, Rounds(cfg, start, timers, rounds).value, last.entries);
            result == Replayed(|last.entries|) && HandlesAll(cfg, last.entries, start, out)
  {
    hide Pass, Waits, TailWindow, Forced, Distinct, Busy, Defer, OnlyQuarantines, Contiguous, AllDone, HandlesAll;
    var r, rest := rounds[0], rounds[1..];
    assert forall i :: 0 <= i < |rest| ==> rest[i] == rounds[i + 1];
    var k := PassPutsOffExactlyWhen(r.world, cfg, start, timers, r.entries, base);
    SinkTimerRuns(cfg, r.entries, timers, r.world.clock(k), sink);
    var after := Pass(r.world, cfg, start, timers, r.entries).0.timers;
    TimerPersists(cfg, start, after, base, rest, sink);
    var carried := Rounds(cfg, start, timers, rounds).value;
    var l := PassPutsOffExactlyWhen(last.world, cfg, start, carried, last.entries, base);
    SinkHasWaited(cfg, last.entries, carried, last.world.clock(l), sink);
    PassHandlesAll(last.world, cfg, last.entries, base, start, carried);
  }

  lemma {:induction false} WrittenIsAhead(cfg: Config, entries: seq<Entry>, base: nat, start: Option<Position>,
                                          trace: Trace)
    requires AllSound(cfg, entries, base, start, trace) && !Unwritten(trace)
    ensures LastWrite(trace, start).Some? && base < LastWrite(trace, start).value.lsn <= base + |entries|
  {
    hide SendsRun, Handled, Unplannable;
    var front, k := trace[..|trace| - 1], |trace| - 1;
    assert Sound(cfg, entries, base, start, trace[..k], trace[k]);
    if !(trace[k].WriteCheckpoint? && trace[k].outcome != Refused) {
      assert forall i :: 0 <= i < k ==> front[..i] == trace[..i];
      WrittenIsAhead(cfg, entries, base, start, front);
    }
  }

  /** A pass with nothing failing that does not end in the waiting described here makes progress: it handles all it
      reads, or puts its tail off with a checkpoint further on. */
  lemma PassAdvances(w: World, cfg: Config, start: Option<Position>, timers: map<string, nat>, entries: seq<Entry>,
                     base: nat)
    requires AllDone(w) && Distinct(cfg.sinkNames) && OnlyQuarantines(cfg, entries)
    requires Contiguous(entries, base) && (start.Some? ==> start.value.lsn == base)
    ensures var (out, result) := Pass(w, cfg, start, timers, entries);
            || (result == Replayed(|entries|) && HandlesAll(cfg, entries, start, out))
            || (result.PutOff? && Unwritten(out.trace))
            || (result.PutOff? && LastWrite(out.trace, start).Some? && LastWrite(out.trace, start).value.lsn > base)
  {
    hide Pass, OnlyQuarantines, Distinct, Contiguous, AllDone, HandlesAll, AllSound, LastWrite;
    PassHandlesAll(w, cfg, entries, base, start, timers);
    PassIsSound(w, cfg, entries, [], base, start, timers);
    assert entries + [] == entries;
    var (out, result) := Pass(w, cfg, start, timers, entries);
    if !Unwritten(out.trace) { WrittenIsAhead(cfg, entries, base, start, out.trace); }
  }

  // ---- what a pass that puts its tail off has done --------------------------------------------

  /** It has handled everything before the tail, and nothing of the tail. */
  lemma {:induction false} PutOffHandlesTheRest(w: World, cfg: Config, known: seq<Entry>, base: nat,
                                                start: Option<Position>, n: nat, rs: State, window: Window,
                                                expected: Option<nat>, count: nat)
    requires Running(cfg, known, [], base, start, n, rs, window, expected)
    ensures var (out, result) := PassFrom(w, cfg, rs, known[n..], window, expected, count);
            var tail := TailWindow(cfg, known[n..], window);
            |tail| <= |known| && (result.PutOff? ==> Handled(cfg, known, |known| - |tail|, out.trace))
    decreases |known| - n
  {
    hide FlushWindow, Plan, ReachesLimit, Settled, Contiguous, Waiting, QuarantineEntry, Handled;
    var entries := known[n..];
    if n == |known| {
      FlushWindowKeepsBooks(w, cfg, known, base, start, n - |window|, rs, window, true);
      SettledIsHandled(cfg, known, base, start, n - |window|, rs);
    } else {
      var e := known[n];
      assert entries[0] == e && entries[1..] == known[n + 1..];
      EntryLsn(known, base, n);
      var next := Some(e.position.lsn + 1);
      match Plan(cfg, e.record) {
        case Failure(issue) =>
          FlushWindowKeepsBooks(w, cfg, known, base, start, n - |window|, rs, window, false);
          var (rs1, flushed) := FlushWindow(w, cfg, rs, window, false);
          if issue.Action() == QuarantineRecord && !flushed.Failed? {
            QuarantineKeepsBooks(cfg, known, base, start, n, rs1);
            NothingWaits(cfg, known, n + 1);
            PutOffHandlesTheRest(w, cfg, known, base, start, n + 1, QuarantineEntry(rs1, e), [], next, count + 1);
          }
        case Success(deliveries) =>
          var more := window + [Planned(e, deliveries)];
          WindowGrows(cfg, known, [], base, start, n, rs, window, expected);
          if !ReachesLimit(cfg, more) {
            PutOffHandlesTheRest(w, cfg, known, base, start, n + 1, rs, more, next, count + 1);
          } else {
            FlushWindowKeepsBooks(w, cfg, known, base, start, n - |window|, rs, more, false);
            var (rs1, flushed) := FlushWindow(w, cfg, rs, more, false);
            if !flushed.Failed? {
              WindowEmptied(cfg, known, [], base, start, n + 1, rs, more, next, rs1);
              PutOffHandlesTheRest(w, cfg, known, base, start, n + 1, rs1, [], next, count + 1);
            }
          }
      }
    }
  }

  lemma SettledIsHandled(cfg: Config, entries: seq<Entry>, base: nat, start: Option<Position>, b: nat, rs: State)
    requires b <= |entries| && Settled(cfg, entries, base, start, b, rs)
    ensures Handled(cfg, entries, b, rs.trace)
  {
  }

  /** Each pass over a starved backlog sends and quarantines once more everything before the tail, nothing of the tail,
      and leaves the start of the next pass where it was. */
  lemma StarvedPassRepeats(w: World, cfg: Config, start: Option<Position>, timers: map<string, nat>,
                           entries: seq<Entry>, base: nat)
    requires AllDone(w) && Brief(cfg, w) && cfg.hasRuntimeState && Distinct(cfg.sinkNames)
             && OnlyQuarantines(cfg, entries)
    requires Contiguous(entries, base) && (start.Some? ==> start.value.lsn == base)
    requires Starved(cfg, entries) && Quiet(cfg, entries, [], 0, 0)
    ensures var (out, result) := Pass(w, cfg, start, timers, entries);
            var tail := TailWindow(cfg, entries, []);
            && result.PutOff? && LastWrite(out.trace, start) == start
            && |tail| <= |entries| && Handled(cfg, entries, |entries| - |tail|, out.trace)
  {
    hide Pass, Starved, Waits, Quiet, TailWindow, AllDone, Brief, LastWrite, Handled, OnlyQuarantines, Contiguous,
         Distinct;
    var k := PassPutsOffExactlyWhen(w, cfg, start, timers, entries, base);
    StarvedWaits(cfg, entries, timers, w.clock(k));
    UnwrittenKeepsStart(Pass(w, cfg, start, timers, entries).0.trace, start);
    PutOffPassHandlesTheRest(w, cfg, start, timers, entries, base);
  }

  lemma PutOffPassHandlesTheRest(w: World, cfg: Config, start: Option<Position>, timers: map<string, nat>,
                                 entries: seq<Entry>, base: nat)
    requires Distinct(cfg.sinkNames)
    requires Contiguous(entries, base) && (start.Some? ==> start.value.lsn == base)
    ensures var (out, result) := Pass(w, cfg, start, timers, entries);
            var tail := TailWindow(cfg, entries, []);
            |tail| <= |entries| && (result.PutOff? ==> Handled(cfg, entries, |entries| - |tail|, out.trace))
  {
    hide PassFrom, TailWindow, LastWrite, Handled, Contiguous, Settled, Waiting;
    var rs := StartState(w, start, timers);
    NothingWaits(cfg, entries, 0);
    NothingDone(cfg, entries, base, start, rs);
    assert entries[0..] == entries;
    PutOffHandlesTheRest(w, cfg, entries, base, start, 0, rs, [],
                         if start.Some? then Some(start.value.lsn + 1) else None, 0);
  }

  // ---- a backlog that is put off for ever ------------------------------------------------------

  /** Every record has one event for the one sink; an empty payload is not an event. */
  function OneEvent(r: Record): Result<seq<Delivery>, Issue> {
    if r.payload == [] then Failure(EventPayload) else Success([Delivery("s", Event(r.payload))])
  }

  /** The limits of the example configuration, with a batch timeout of five seconds. */
  const USUAL := Config(OneEvent, ["s"], (_: string) => BatchPolicy(1000, 67108864, 5000), 1000, 67108864, 1000, 1000,
                        67108864, true)

  function EntryOf(node: seq<byte>, e: Envelope, n: nat, payload: seq<byte>): Entry {
    Entry(Position(n, 1, 100 * n), Position(n, 1, 100 * n + 100), Record([], n, node, e, payload))
  }

  /** A record, one that is quarantined, and another one. */
  function Backlog(node: seq<byte>, e: Envelope): seq<Entry> {
    [EntryOf(node, e, 1, [1]), EntryOf(node, e, 2, []), EntryOf(node, e, 3, [1])]
  }

  const ONE: seq<Delivery> := [Delivery("s", Event([1]))]

  lemma PlanOfEntry(node: seq<byte>, e: Envelope, n: nat)
    ensures Plan(USUAL, EntryOf(node, e, n, [1]).record) == Success(ONE)
    ensures Plan(USUAL, EntryOf(node, e, n, []).record) == Failure(EventPayload)
  {
    assert ONE[1..] == [];
    assert !WhiteSpace(ONE[0].target[0]);
    assert TargetIssue(USUAL, ONE) == TargetIssue(USUAL, ONE[1..]);
  }

  lemma EventOfEntry(node: seq<byte>, e: Envelope, n: nat)
    ensures EventsOfEntry(EntryOf(node, e, n, [1]), ONE, "s") == [SinkEvent(node, n, Event([1]))]
  {
    assert ONE[..0] == [];
    assert EventsFor(ONE, "s") == EventsFor(ONE[..0], "s") + [Event([1])];
  }

  function WindowOf(node: seq<byte>, e: Envelope, n: nat): Window {
    [Planned(EntryOf(node, e, n, [1]), ONE)]
  }

  /** A window of one entry: its event. */
  lemma ShareOfOne(node: seq<byte>, e: Envelope, n: nat)
    ensures WindowEvents(WindowOf(node, e, n), None, "s") == [SinkEvent(node, n, Event([1]))]
    ensures Busy(USUAL.sinkNames, WindowOf(node, e, n), None) == {"s"}
  {
    hide EventsOfEntry;
    EventOfEntry(node, e, n);
    assert WindowOf(node, e, n)[..0] == [];
  }

  /** Its size. */
  lemma SizeOfOne(node: seq<byte>, e: Envelope, n: nat)
    ensures SumBytes(WindowOf(node, e, n)) == 100 && WindowBytes(WindowOf(node, e, n)) == 100
  {
    var window := WindowOf(node, e, n);
    assert window[..0] == [];
    assert WindowBytes(window) == SatAdd(WindowBytes([]), 100);
  }

  /** It fills neither the window nor a batch. */
  lemma OneFillsNothing(node: seq<byte>, e: Envelope, n: nat)
    ensures !ReachesLimit(USUAL, WindowOf(node, e, n)) && !Full(PolicyOf(USUAL, "s"), [SinkEvent(node, n, Event([1]))])
  {
    hide WindowBytes;
    SizeOfOne(node, e, n);
    var event := SinkEvent(node, n, Event([1]));
    assert [event][..0] == [];
    assert BytesOf([event]) == SatAdd(BytesOf([]), 1);
  }

  lemma BacklogIsStarved(node: seq<byte>, e: Envelope)
    ensures var entries := Backlog(node, e);
            && |TailWindow(USUAL, entries, [])| == 1 && Starved(USUAL, entries) && Quiet(USUAL, entries, [], 0, 0)
            && Contiguous(entries, 0) && OnlyQuarantines(USUAL, entries) && Distinct(USUAL.sinkNames)
  {
    hide Plan, WindowEvents, Busy, SumBytes, ReachesLimit, Full, PolicyOf;
    var entries := Backlog(node, e);
    var first, last := WindowOf(node, e, 1), WindowOf(node, e, 3);
    PlanOfEntry(node, e, 1);
    PlanOfEntry(node, e, 2);
    PlanOfEntry(node, e, 3);
    ShareOfOne(node, e, 1);
    ShareOfOne(node, e, 3);
    SizeOfOne(node, e, 1);
    SizeOfOne(node, e, 3);
    OneFillsNothing(node, e, 1);
    OneFillsNothing(node, e, 3);
    var two, one := entries[1..], entries[2..];
    assert two[1..] == one && one[1..] == [];
    assert [] + first == first && [] + last == last;
    assert TailWindow(USUAL, one, []) == TailWindow(USUAL, [], last) == last;
    assert TailWindow(USUAL, entries, []) == TailWindow(USUAL, two, first) == last;
    assert Forced(USUAL, one, []) == Forced(USUAL, [], last) == {};
    assert Forced(USUAL, entries, []) == Forced(USUAL, two, first) == {"s"} + {};
    assert Quiet(USUAL, one, [], 2, 200) == Quiet(USUAL, [], last, 2, 200);
    assert Quiet(USUAL, entries, [], 0, 0) == Quiet(USUAL, two, first, 0, 0);
  }

  lemma BacklogBeforeTail(node: seq<byte>, e: Envelope)
    ensures var before := Backlog(node, e)[..2];
            && Emitted(USUAL, before, "s") == [SinkEvent(node, 1, Event([1]))] && ToQuarantine(USUAL, before) == [2]
  {
    hide Plan, EventsOfEntry;
    var before := Backlog(node, e)[..2];
    PlanOfEntry(node, e, 1);
    PlanOfEntry(node, e, 2);
    EventOfEntry(node, e, 1);
    var first := before[..1];
    assert first[..0] == [] && before == [EntryOf(node, e, 1, [1]), EntryOf(node, e, 2, [])];
    assert Emitted(USUAL, first, "s") == Emitted(USUAL, [], "s") + [SinkEvent(node, 1, Event([1]))];
    assert ToQuarantine(USUAL, first) == ToQuarantine(USUAL, []);
  }

  /** A quarantined record between two others, one sink, nothing fails: each pass sends the first event again,
      quarantines the second record again, never sends the third event, and persists nothing, at any time and with any
      timers. */
  lemma ForcedFlushStarvesTheTail(w: World, timers: map<string, nat>, node: seq<byte>, e: Envelope)
    requires AllDone(w) && Brief(USUAL, w)
    ensures var (out, result) := Pass(w, USUAL, None, timers, Backlog(node, e));
            && result.PutOff? && LastWrite(out.trace, None).None?
            && Accepted(out.trace, "s") == [SinkEvent(node, 1, Event([1]))] && Quarantined(out.trace) == [2]
  {
    hide Pass, Starved, Quiet, TailWindow, OnlyQuarantines, Distinct, AllDone, Brief, LastWrite, Accepted, Quarantined,
         Emitted, ToQuarantine;
    var entries := Backlog(node, e);
    BacklogIsStarved(node, e);
    StarvedPassRepeats(w, USUAL, None, timers, entries, 0);
    BacklogBeforeTail(node, e);
    assert "s" in USUAL.sinkNames;
  }
}
