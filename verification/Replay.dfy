/** One replay pass as a function from what it reads to the effects it has: src/wal/replay.rs. */
module Replay {
  import opened Wrappers
  import opened SegmentFile
  import opened ReplayPlan
  import opened SinkBatching

  /** An entry whose deliveries are known and wait in the replay window. */
  datatype Planned = Planned(entry: Entry, deliveries: seq<Delivery>)

  type Window = seq<Planned>

  /** `ReplayCheckpointState` and the sink timers, plus the effects so far and the clock readings used. */
  datatype State = State(
    checkpoint: Option<Position>,
    pending: Option<Position>,
    pendingRecords: nat,
    pendingBytes: nat,
    lastFlush: nat,
    timers: map<string, nat>,
    ticks: nat,
    trace: Trace)

  // ---- what a window holds for a sink ---------------------------------------------------------

  /** `checkpoint_covers_entry`. */
  predicate Covers(checkpoint: Option<Position>, e: Entry) {
    checkpoint.Some? && checkpoint.value.lsn >= e.position.lsn
  }

  function EventsOfEntry(e: Entry, deliveries: seq<Delivery>, sink: string): seq<SinkEvent> {
    var events := EventsFor(deliveries, sink);
    seq(|events|, i requires 0 <= i < |events| => SinkEvent(e.record.nodeId, e.position.lsn, events[i]))
  }

  function WindowEvents(window: Window, checkpoint: Option<Position>, sink: string): seq<SinkEvent> {
    if window == [] then []
    else
      var item := window[|window| - 1];
      WindowEvents(window[..|window| - 1], checkpoint, sink)
      + if Covers(checkpoint, item.entry) then [] else EventsOfEntry(item.entry, item.deliveries, sink)
  }

  /** Saturating frame length of an entry. */
  function EntryBytes(e: Entry): nat {
    if e.nextPosition.offset >= e.position.offset then e.nextPosition.offset - e.position.offset else 0
  }

  function WindowBytes(window: Window): nat {
    if window == [] then 0
    else SatAdd(WindowBytes(window[..|window| - 1]), EntryBytes(window[|window| - 1].entry))
  }

  /** `replay_batch_reaches_window_policy`. */
  predicate ReachesLimit(cfg: Config, window: Window) {
    |window| >= AtLeastOne(cfg.maxRecords) || WindowBytes(window) >= AtLeastOne(cfg.maxBytes)
  }

  // ---- deferral -------------------------------------------------------------------------------

  /** Is this sink's share of the window too small, and too young, to go out on its own? */
  predicate Full(p: BatchPolicy, events: seq<SinkEvent>) {
    p.timeout == 0 || |events| >= p.maxEvents || BytesOf(events) >= p.maxBytes
  }

  function Started(timers: map<string, nat>, sink: string, now: nat): map<string, nat> {
    if sink in timers then timers else timers[sink := now]
  }

  /** The loop of `sinks_deferred_by_batch_timeout` over the sinks in name order. */
  function Defer(cfg: Config, names: seq<string>, window: Window, checkpoint: Option<Position>,
                 timers: map<string, nat>, now: nat, some: bool): (bool, map<string, nat>)
  {
    if names == [] then (some, timers)
    else
      var sink, rest := names[0], names[1..];
      var events, p := WindowEvents(window, checkpoint, sink), PolicyOf(cfg, sink);
      if events == [] then Defer(cfg, rest, window, checkpoint, timers, now, some)
      else if Full(p, events) then (false, timers)
      else
        var started := Started(timers, sink, now);
        if now >= started[sink] + p.timeout then (false, started)
        else Defer(cfg, rest, window, checkpoint, started, now, true)
  }

  // ---- checkpoint bookkeeping -----------------------------------------------------------------

  /** `mark_checkpoint_pending`. */
  function Mark(rs: State, e: Entry): State {
    rs.(pending := Some(e.nextPosition), pendingRecords := rs.pendingRecords + 1,
        pendingBytes := rs.pendingBytes + EntryBytes(e))
  }

  function MarkWindow(rs: State, window: Window): State {
    if window == [] then rs
    else
      var before, item := MarkWindow(rs, window[..|window| - 1]), window[|window| - 1];
      if Covers(rs.checkpoint, item.entry) then before else Mark(before, item.entry)
  }

  /** `should_flush_checkpoint`. */
  predicate ShouldFlush(cfg: Config, rs: State, now: nat) {
    || rs.pendingRecords >= AtLeastOne(cfg.flushRecords)
    || rs.pendingBytes >= AtLeastOne(cfg.flushBytes)
    || now >= rs.lastFlush + AtLeastOne(cfg.flushInterval)
  }

  function Did(rs: State, e: Effect): State {
    rs.(trace := rs.trace + [e])
  }

  /** `flush_pending_checkpoint`. */
  function FlushPending(w: World, rs: State): (State, bool) {
    if rs.pending.None? then (rs, true)
    else
      var outcome := w.outcome(|rs.trace|);
      var written := Did(rs, WriteCheckpoint(rs.pending.value, outcome));
      if outcome != Done then (written, false)
      else (written.(checkpoint := rs.pending, pending := None, pendingRecords := 0, pendingBytes := 0,
                     lastFlush := w.clock(rs.ticks), ticks := rs.ticks + 1), true)
  }

  /** `cleanup_covered_segments`. */
  function CleanupCovered(w: World, rs: State): (State, bool) {
    if rs.checkpoint.None? then (rs, true)
    else
      var outcome := w.outcome(|rs.trace|);
      (Did(rs, Cleanup(rs.checkpoint.value.lsn, rs.checkpoint.value.segment, outcome)), outcome == Done)
  }

  /** Persist the pending checkpoint, then delete the segments it covers. */
  function Settle(w: World, rs: State): (State, bool) {
    var (flushed, ok) := FlushPending(w, rs);
    if !ok then (flushed, false) else CleanupCovered(w, flushed)
  }

  // ---- flushing a window ----------------------------------------------------------------------

  function FlushSinks(w: World, cfg: Config, names: seq<string>, window: Window, checkpoint: Option<Position>,
                      trace: Trace): (Trace, Option<Issue>)
  {
    if names == [] then (trace, None)
    else
      var (sent, failed) := SendEvents(w, cfg, names[0], WindowEvents(window, checkpoint, names[0]), trace);
      if failed.Some? then (sent, Some(SinkIssue(names[0], failed.value)))
      else FlushSinks(w, cfg, names[1..], window, checkpoint, sent)
  }

  function Busy(names: seq<string>, window: Window, checkpoint: Option<Position>): set<string> {
    set s | s in names && WindowEvents(window, checkpoint, s) != []
  }

  datatype FlushResult = Flushed | Deferred | Failed(issue: Issue)

  /** The test at the top of `replay_batch_to_sinks` that may put a small tail batch off. */
  function TryDefer(w: World, cfg: Config, rs: State, window: Window, allowDefer: bool): (bool, State) {
    if !allowDefer || !cfg.hasRuntimeState then (false, rs)
    else
      var (deferred, timers) := Defer(cfg, cfg.sinkNames, window, rs.checkpoint, rs.timers, w.clock(rs.ticks), false);
      (deferred, rs.(timers := timers, ticks := rs.ticks + 1))
  }

  /** The end of `replay_batch_to_sinks`, once every sink has taken its events. */
  function Finish(w: World, cfg: Config, rs: State, window: Window): (State, FlushResult) {
    var timers := if cfg.hasRuntimeState then rs.timers - Busy(cfg.sinkNames, window, rs.checkpoint) else rs.timers;
    var marked := MarkWindow(rs.(timers := timers), window);
    var rs1 := marked.(ticks := marked.ticks + 1);
    if !ShouldFlush(cfg, rs1, w.clock(marked.ticks)) then (rs1, Flushed)
    else
      var (rs2, ok) := Settle(w, rs1);
      (rs2, if ok then Flushed else Failed(RuntimeIssue))
  }

  /** `replay_batch_to_sinks`. */
  function FlushWindow(w: World, cfg: Config, rs: State, window: Window, allowDefer: bool): (State, FlushResult) {
    if window == [] then (rs, Flushed)
    else
      var (deferred, rs1) := TryDefer(w, cfg, rs, window, allowDefer);
      if deferred then (rs1, Deferred)
      else
        var (sent, issue) := FlushSinks(w, cfg, cfg.sinkNames, window, rs.checkpoint, rs.trace);
        if issue.Some? then (rs1.(trace := sent), Failed(issue.value))
        else Finish(w, cfg, rs1.(trace := sent), window)
  }

  // ---- the pass -------------------------------------------------------------------------------

  datatype PassResult = Replayed(count: nat) | PutOff | Stopped(issue: Issue)

  /** `quarantine_replay_issue`. */
  function QuarantineEntry(rs: State, e: Entry): State {
    Mark(Did(rs, Quarantine(e.position.lsn)), e)
  }

  /** Flush the window by force; if that fails its issue is the result, otherwise `issue` is. */
  function FlushThenStop(w: World, cfg: Config, rs: State, window: Window, issue: Issue): (State, PassResult) {
    var (out, flushed) := FlushWindow(w, cfg, rs, window, false);
    (out, Stopped(if flushed.Failed? then flushed.issue else issue))
  }

  /** The entry loop of `replay_once_inner` and what follows it. */
  function PassFrom(w: World, cfg: Config, rs: State, entries: seq<Entry>, window: Window, expected: Option<nat>,
                    count: nat): (State, PassResult)
    decreases |entries|
  {
    if entries == [] then
      var (rs1, flushed) := FlushWindow(w, cfg, rs, window, true);
      match flushed
      case Failed(issue) => (rs1, Stopped(issue))
      case Deferred => (rs1, PutOff)
      case Flushed =>
        var (rs2, ok) := Settle(w, rs1);
        (rs2, if ok then Replayed(count) else Stopped(RuntimeIssue))
    else
      var e, rest := entries[0], entries[1..];
      if expected.Some? && e.position.lsn != expected.value then FlushThenStop(w, cfg, rs, window, WalIssue)
      else
        var next := Some(e.position.lsn + 1);
        match Plan(cfg, e.record)
        case Failure(issue) =>
          if issue.Action() != QuarantineRecord then FlushThenStop(w, cfg, rs, window, issue)
          else
            var (rs1, flushed) := FlushWindow(w, cfg, rs, window, false);
            if flushed.Failed? then (rs1, Stopped(flushed.issue))
            else PassFrom(w, cfg, QuarantineEntry(rs1, e), rest, [], next, count + 1)
        case Success(deliveries) =>
          var window' := window + [Planned(e, deliveries)];
          if !ReachesLimit(cfg, window') then PassFrom(w, cfg, rs, rest, window', next, count + 1)
          else
            var (rs1, flushed) := FlushWindow(w, cfg, rs, window', false);
            if flushed.Failed? then (rs1, Stopped(flushed.issue))
            else PassFrom(w, cfg, rs1, rest, [], next, count + 1)
  }

  function StartState(w: World, start: Option<Position>, timers: map<string, nat>): State {
    State(start, None, 0, 0, w.clock(0), timers, 1, [])
  }

  /** `replay_once_inner` once the checkpoint and the entries behind it have been read. */
  function Pass(w: World, cfg: Config, start: Option<Position>, timers: map<string, nat>, entries: seq<Entry>)
    : (State, PassResult)
  {
    PassFrom(w, cfg, StartState(w, start, timers), entries, [],
             if start.Some? then Some(start.value.lsn + 1) else None, 0)
  }
}
