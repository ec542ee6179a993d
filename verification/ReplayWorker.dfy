/** The replay worker of src/wal/replay.rs, statement by statement, against the pass of module Replay. */
module ReplayWorker {
  import opened Bytes
  import opened Wrappers
  import opened FrameCodec
  import opened SegmentFile
  import opened ReplayPlan
  import opened SinkBatching
  import opened Replay
  import opened ReplayExact
  import opened LogReader
  import opened LogInvariant
  import opened WalSpec
  import opened SegmentCodec
  import opened SegmentLog
  import Pipeline

  /** `ReplayEntryDeliveries`: an entry with its deliveries grouped by sink. */
  datatype Item = Item(entry: Entry, deliveriesBySink: map<string, seq<Event>>)

  type EventsByName = map<string, seq<SinkEvent>>

  /** The grouping of an item says the same as the delivery list of the plan. */
  ghost predicate Groups(cfg: Config, item: Item, planned: Planned) {
    && item.entry == planned.entry
    && (forall s :: s in item.deliveriesBySink ==> s in cfg.sinkNames)
    && (forall s :: EventsFor(planned.deliveries, s)
                    == if s in item.deliveriesBySink then item.deliveriesBySink[s] else [])
  }

  ghost predicate AllGroup(cfg: Config, items: seq<Item>, window: Window) {
    |items| == |window| && forall i :: 0 <= i < |items| ==> Groups(cfg, items[i], window[i])
  }

  /** `sink_events_by_name` holds each sink's share of the window, and no empty share. */
  ghost predicate Collects(cfg: Config, byName: EventsByName, window: Window, checkpoint: Option<Position>) {
    && (forall s :: s in byName ==> s in cfg.sinkNames && byName[s] != [])
    && (forall s :: WindowEvents(window, checkpoint, s) == if s in byName then byName[s] else [])
  }

  function Converted(e: Entry, events: seq<Event>): seq<SinkEvent> {
    seq(|events|, i requires 0 <= i < |events| => SinkEvent(e.record.nodeId, e.position.lsn, events[i]))
  }

  /** The inner loop that turns a record's events into delivery events. */
  method ToSinkEvents(e: Entry, events: seq<Event>) returns (out: seq<SinkEvent>)
    ensures out == Converted(e, events)
  {
    out := [];
    for i := 0 to |events|
      invariant out == Converted(e, events[..i])
    {
      out := out + [SinkEvent(e.record.nodeId, e.position.lsn, events[i])];
    }
    assert events[..|events|] == events;
  }

  /** Every list of `byName` is that of `byName0` followed by the item's events for the sink. */
  ghost predicate Added(byName0: EventsByName, item: Item, byName: EventsByName) {
    && (forall s :: s in byName <==> s in byName0 || (s in item.deliveriesBySink && item.deliveriesBySink[s] != []))
    && (forall s :: s in byName ==>
          byName[s] == (if s in byName0 then byName0[s] else [])
                       + (if s in item.deliveriesBySink then Converted(item.entry, item.deliveriesBySink[s]) else []))
  }

  method AddItem(byName0: EventsByName, item: Item) returns (byName: EventsByName)
    ensures Added(byName0, item, byName)
  {
    byName := byName0;
    var left := item.deliveriesBySink.Keys;
    while left != {}
      invariant left <= item.deliveriesBySink.Keys
      invariant forall s :: s in byName <==>
                  s in byName0 || (s in item.deliveriesBySink && s !in left && item.deliveriesBySink[s] != [])
      invariant forall s :: s in byName ==>
                  byName[s] == (if s in byName0 then byName0[s] else [])
                               + (if s in item.deliveriesBySink && s !in left
                                  then Converted(item.entry, item.deliveriesBySink[s]) else [])
      decreases left
    {
      var sink :| sink in left;
      left := left - {sink};
      var events := item.deliveriesBySink[sink];
      if events == [] { continue; }
      var more := ToSinkEvents(item.entry, events);
      byName := byName[sink := (if sink in byName then byName[sink] else []) + more];
    }
  }

  /** The first loop of `replay_batch_to_sinks`. */
  method CollectSinkEvents(cfg: Config, items: seq<Item>, checkpoint: Option<Position>, ghost window: Window)
    returns (byName: EventsByName)
    requires AllGroup(cfg, items, window)
    ensures Collects(cfg, byName, window, checkpoint)
  {
    hide WindowEvents, Added;
    byName := map[];
    NothingCollected(checkpoint);
    assert window[..0] == [];
    for n := 0 to |items|
      invariant Collects(cfg, byName, window[..n], checkpoint)
    {
      CollectOneMore(window, checkpoint, n);
      assert Groups(cfg, items[n], window[n]);
      if Covers(checkpoint, items[n].entry) { continue; }
      ghost var before := byName;
      byName := AddItem(byName, items[n]);
      CollectsWithItem(cfg, before, items[n], byName, window, checkpoint, n);
    }
    assert window[..|items|] == window;
  }

  lemma CollectsWithItem(cfg: Config, before: EventsByName, item: Item, byName: EventsByName, window: Window,
                         checkpoint: Option<Position>, n: nat)
    requires n < |window| && Groups(cfg, item, window[n]) && !Covers(checkpoint, item.entry)
    requires Collects(cfg, before, window[..n], checkpoint) && Added(before, item, byName)
    ensures Collects(cfg, byName, window[..n + 1], checkpoint)
  {
    hide WindowEvents, Groups, Added;
    forall s
      ensures s in byName ==> s in cfg.sinkNames && byName[s] != []
      ensures WindowEvents(window[..n + 1], checkpoint, s) == if s in byName then byName[s] else []
    {
      SinkWithItem(cfg, before, item, byName, window, checkpoint, n, s);
    }
  }

  lemma SinkWithItem(cfg: Config, before: EventsByName, item: Item, byName: EventsByName, window: Window,
                     checkpoint: Option<Position>, n: nat, s: string)
    requires n < |window| && Groups(cfg, item, window[n]) && !Covers(checkpoint, item.entry)
    requires Collects(cfg, before, window[..n], checkpoint) && Added(before, item, byName)
    ensures s in byName ==> s in cfg.sinkNames && byName[s] != []
    ensures WindowEvents(window[..n + 1], checkpoint, s) == if s in byName then byName[s] else []
  {
    hide WindowEvents, EventsOfEntry, Converted, EventsFor;
    CollectOneMore(window, checkpoint, n);
    ItemEvents(cfg, item, window[n], s);
  }

  lemma ItemEvents(cfg: Config, item: Item, planned: Planned, s: string)
    requires Groups(cfg, item, planned)
    ensures EventsOfEntry(planned.entry, planned.deliveries, s)
            == if s in item.deliveriesBySink then Converted(item.entry, item.deliveriesBySink[s]) else []
    ensures s in item.deliveriesBySink ==>
              (Converted(item.entry, item.deliveriesBySink[s]) == [] <==> item.deliveriesBySink[s] == [])
  {
    hide EventsFor;
  }

  lemma NothingCollected(checkpoint: Option<Position>)
    ensures forall s :: WindowEvents([], checkpoint, s) == []
  {
  }

  lemma CollectOneMore(window: Window, checkpoint: Option<Position>, n: nat)
    requires n < |window|
    ensures forall s :: WindowEvents(window[..n + 1], checkpoint, s)
              == WindowEvents(window[..n], checkpoint, s)
                 + (if Covers(checkpoint, window[n].entry) then []
                    else EventsOfEntry(window[n].entry, window[n].deliveries, s))
  {
    assert window[..n + 1][..n] == window[..n];
  }

  /** `read_replay_checkpoint_state` with `read_checkpoint` and `reset_checkpoint`: the start of the pass, and the
      checkpoint file afterwards. */
  method ReadReplayCheckpoint(c: Codec, files: Files, persisted: Option<Position>, latest: bool,
                              ghost nodeId: seq<byte>, ghost segs: Log)
    returns (res: Result<(Option<Position>, Option<Position>), WalError>)
    ensures Lawful(c) && Holds(c, nodeId, files, segs)
            ==> res == Success(Pipeline.ReadCheckpoint(c, segs, persisted, latest))
  {
    hide Holds, BoundsOf;
    var bounds := ReadWalBounds(c, files, nodeId, segs);
    if bounds.Failure? { return Failure(bounds.error); }
    if persisted.Some? && !BeforeFloor(persisted.value, bounds.value) { return Success((persisted, persisted)); }
    if !latest { return Success((None, persisted)); }
    if bounds.value.tail.None? { return Success((None, persisted)); }
    return Success((bounds.value.tail, bounds.value.tail));
  }

  // ---- batching -------------------------------------------------------------------------------

  /** One event joins the open batch, or the open batch goes out first. */
  lemma OneEvent(w: World, p: BatchPolicy, sink: string, batch: Batch, events: seq<SinkEvent>, n: nat,
                 nodeId: seq<byte>, trace: Trace)
    requires n < |events| && p.maxEvents >= 1
    ensures BytesOf(batch + [events[n]]) == SatAdd(BytesOf(batch), |events[n].event.json|)
    ensures BytesOf([events[n]]) == SatAdd(0, |events[n].event.json|)
    ensures !Closes(p, batch, events[n]) ==>
              BatchesFrom(p, batch, events[n..]) == BatchesFrom(p, batch + [events[n]], events[n + 1..])
    ensures Closes(p, batch, events[n]) ==>
              && batch != []
              && var outcome := w.outcome(|trace|);
                 var sent := trace + [Send(sink, batch, MetadataOf(batch, batch[0].nodeId), outcome)];
                 SendAll(w, sink, BatchesFrom(p, batch, events[n..]), nodeId, trace)
                 == if outcome == Done
                    then SendAll(w, sink, BatchesFrom(p, [events[n]], events[n + 1..]), nodeId, sent)
                    else (sent, Some(batch[0].lsn))
  {
    OneMoreByteCount(batch, events[n]);
    OneMoreByteCount([], events[n]);
    assert [] + [events[n]] == [events[n]];
    assert events[n..][0] == events[n] && events[n..][1..] == events[n + 1..];
    if Closes(p, batch, events[n]) {
      var later := BatchesFrom(p, [events[n]], events[n + 1..]);
      FirstBatchStarts(p, [events[n]], events[n + 1..]);
      assert ([batch] + later)[1..] == later && |[batch] + later| > 1;
    }
  }

  /** The batch left over at the end goes out with the node id of the first event of all. */
  lemma LastBatch(w: World, p: BatchPolicy, sink: string, batch: Batch, nodeId: seq<byte>, trace: Trace)
    ensures batch == [] ==> SendAll(w, sink, BatchesFrom(p, batch, []), nodeId, trace) == (trace, None)
    ensures batch != [] ==>
              var outcome := w.outcome(|trace|);
              SendAll(w, sink, BatchesFrom(p, batch, []), nodeId, trace)
              == (trace + [Send(sink, batch, MetadataOf(batch, nodeId), outcome)],
                  if outcome == Done then None else Some(batch[0].lsn))
  {
    assert batch != [] ==> [batch][1..] == [];
  }

  // ---- the worker -----------------------------------------------------------------------------

  class Worker {
    const w: World
    const cfg: Config
    var checkpoint: Option<Position>
    var pending: Option<Position>
    var pendingRecords: nat
    var pendingBytes: nat
    var lastFlush: nat
    var timers: map<string, nat>
    var ticks: nat
    var trace: Trace

    /** `read_replay_checkpoint_state` once the checkpoint is known. */
    constructor (w: World, cfg: Config, start: Option<Position>, timers: map<string, nat>)
      ensures this.w == w && this.cfg == cfg && Now() == StartState(w, start, timers)
    {
      this.w, this.cfg, this.timers := w, cfg, timers;
      checkpoint, pending, pendingRecords, pendingBytes := start, None, 0, 0;
      lastFlush, ticks, trace := w.clock(0), 1, [];
    }

    ghost function Now(): State
      reads this
    {
      State(checkpoint, pending, pendingRecords, pendingBytes, lastFlush, timers, ticks, trace)
    }

    /** A call into the outside world. */
    method Act(effect: Effect)
      modifies this`trace
      ensures Now() == Did(old(Now()), effect)
    {
      trace := trace + [effect];
    }

    method ReadClock() returns (now: nat)
      modifies this`ticks
      ensures now == w.clock(old(ticks)) && Now() == old(Now()).(ticks := old(ticks) + 1)
    {
      now := w.clock(ticks);
      ticks := ticks + 1;
    }

    /** `mark_checkpoint_pending`. */
    method MarkCheckpointPending(e: Entry)
      modifies this`pending, this`pendingRecords, this`pendingBytes
      ensures Now() == Mark(old(Now()), e)
      ensures forall entries: seq<Entry>, base, b: nat {:trigger Counted(entries, base, b, old(Now()))} ::
                b < |entries| && e == entries[b] && Counted(entries, base, b, old(Now())) ==>
                    Counted(entries, base, b + 1, Now())
    {
      pending := Some(e.nextPosition);
      pendingRecords := pendingRecords + 1;
      pendingBytes := pendingBytes + EntryBytes(e);
    }

    /** `flush_pending_checkpoint`. */
    method FlushPendingCheckpoint() returns (ok: bool)
      modifies this
      ensures (Now(), ok) == FlushPending(w, old(Now()))
      ensures ok && old(pending).Some? ==>
              checkpoint == old(pending) && pending.None? && pendingRecords == pendingBytes == 0
      ensures !ok ==> Now() == old(Now()).(trace := trace)
      ensures forall start {:trigger LastWrite(old(trace), start)} ::
                LastWrite(old(trace), start) == old(checkpoint) && ok ==> LastWrite(trace, start) == checkpoint
    {
      if pending.None? { return true; }
      var position, outcome := pending.value, w.outcome(|trace|);
      Act(WriteCheckpoint(position, outcome));
      if outcome != Done { return false; }
      checkpoint, pending, pendingRecords, pendingBytes := Some(position), None, 0, 0;
      lastFlush := ReadClock();
      return true;
    }

    /** `cleanup_covered_segments`. */
    method CleanupCoveredSegments() returns (ok: bool)
      modifies this
      ensures (Now(), ok) == CleanupCovered(w, old(Now()))
      ensures Now() == old(Now()).(trace := trace)
      ensures forall start {:trigger LastWrite(old(trace), start)} ::
                LastWrite(old(trace), start) == checkpoint ==> LastWrite(trace, start) == checkpoint
    {
      if checkpoint.None? { return true; }
      var outcome := w.outcome(|trace|);
      Act(Cleanup(checkpoint.value.lsn, checkpoint.value.segment, outcome));
      return outcome == Done;
    }

    /** `flush_pending_checkpoint`, then `cleanup_covered_segments`. */
    method FlushAndCleanUp() returns (ok: bool)
      modifies this
      ensures (Now(), ok) == Settle(w, old(Now()))
    {
      ok := FlushPendingCheckpoint();
      if !ok { return false; }
      ok := CleanupCoveredSegments();
    }

    /** `send_sink_batch`; the failed LSN is the metadata's first. */
    method SendSinkBatch(sink: string, batch: Batch, metadata: Metadata) returns (failed: Option<nat>)
      modifies this`trace
      ensures var outcome := w.outcome(|old(trace)|);
              && Now() == Did(old(Now()), Send(sink, batch, metadata, outcome))
              && failed == if outcome == Done then None else Some(metadata.lsnStart)
    {
      var outcome := w.outcome(|trace|);
      Act(Send(sink, batch, metadata, outcome));
      return if outcome == Done then None else Some(metadata.lsnStart);
    }

    /** `send_sink_events_in_batches`. */
    method SendSinkEventsInBatches(sink: string, events: seq<SinkEvent>) returns (failed: Option<nat>)
      modifies this`trace
      ensures (trace, failed) == SendEvents(w, cfg, sink, events, old(trace))
    {
      hide SendAll, BatchesFrom, BytesOf;
      var policy := PolicyOf(cfg, sink);
      var batch: Batch, batchBytes := [], 0;
      var batchNodeId: Option<seq<byte>>, batchFirstLsn: Option<nat>, batchLastLsn: Option<nat> := None, None, None;
      ghost var nodeId := if events == [] then [] else events[0].nodeId;
      assert events[0..] == events;
      NoBytes();
      LastBatch(w, policy, sink, [], nodeId, trace);
      for n := 0 to |events|
        invariant SendAll(w, sink, Batches(policy, events), nodeId, old(trace))
               == SendAll(w, sink, BatchesFrom(policy, batch, events[n..]), nodeId, trace)
        invariant batchBytes == BytesOf(batch)
        invariant batch == [] ==> batchNodeId.None? && batchFirstLsn.None?
        invariant batch == [] <==> n == 0
        invariant batch != [] ==>
                    && batchNodeId == Some(batch[0].nodeId) && batchFirstLsn == Some(batch[0].lsn)
                    && batchLastLsn == Some(batch[|batch| - 1].lsn)
      {
        var delivery := events[n];
        OneEvent(w, policy, sink, batch, events, n, nodeId, trace);
        var wouldExceedEvents := |batch| >= policy.maxEvents;
        var wouldExceedBytes := batch != [] && SatAdd(batchBytes, |delivery.event.json|) > policy.maxBytes;
        if wouldExceedEvents || wouldExceedBytes {
          failed := SendSinkBatch(sink, batch, Metadata(batchNodeId.value, batchFirstLsn.value, batchLastLsn.value));
          if failed.Some? { return; }
          batch, batchBytes, batchNodeId, batchFirstLsn := [], 0, None, None;
        }
        assert [] + [delivery] == [delivery];
        if batchNodeId.None? { batchNodeId := Some(delivery.nodeId); }
        if batchFirstLsn.None? { batchFirstLsn := Some(delivery.lsn); }
        batchLastLsn := Some(delivery.lsn);
        batchBytes := SatAdd(batchBytes, |delivery.event.json|);
        batch := batch + [delivery];
      }
      assert events[|events|..] == [];
      LastBatch(w, policy, sink, batch, nodeId, trace);
      if batch != [] {
        failed := SendSinkBatch(sink, batch, Metadata(events[0].nodeId, batchFirstLsn.value, batchLastLsn.value));
        return;
      }
      failed := None;
    }

    /** `sinks_deferred_by_batch_timeout`; only whether the list is empty matters to the caller. */
    method SinksDeferredByBatchTimeout(byName: EventsByName, ghost window: Window) returns (deferred: bool)
      requires Collects(cfg, byName, window, checkpoint)
      modifies this`timers, this`ticks
      ensures (deferred, Now()) == TryDefer(w, cfg, old(Now()), window, true)
    {
      if !cfg.hasRuntimeState { return false; }
      hide WindowEvents, Defer;
      var now := ReadClock();
      deferred := AllBelowTheirLimits(byName, now, window);
    }

    /** The loop over the sinks in `sinks_deferred_by_batch_timeout`. */
    method AllBelowTheirLimits(byName: EventsByName, now: nat, ghost window: Window) returns (deferred: bool)
      requires Collects(cfg, byName, window, checkpoint)
      modifies this`timers
      ensures (deferred, timers) == Defer(cfg, cfg.sinkNames, window, checkpoint, old(timers), now, false)
    {
      hide WindowEvents, BytesOf, Defer, Full, Started, PolicyOf;
      deferred := false;
      assert cfg.sinkNames[0..] == cfg.sinkNames;
      for n := 0 to |cfg.sinkNames|
        invariant Defer(cfg, cfg.sinkNames, window, checkpoint, old(timers), now, false)
               == Defer(cfg, cfg.sinkNames[n..], window, checkpoint, timers, now, deferred)
      {
        var sink := cfg.sinkNames[n];
        DeferTurn(cfg, n, window, checkpoint, timers, now, deferred);
        if sink !in byName { continue; }
        if Full(PolicyOf(cfg, sink), byName[sink]) { return false; }
        timers := Started(timers, sink, now);
        if now >= timers[sink] + PolicyOf(cfg, sink).timeout { return false; }
        deferred := true;
      }
      NoMoreSinks(cfg, window, checkpoint, timers, now, deferred);
    }

    /** The sending loop of `replay_batch_to_sinks`, in sink name order. */
    method SendToSinks(byName: EventsByName, ghost window: Window) returns (issue: Option<Issue>)
      requires Collects(cfg, byName, window, checkpoint)
      modifies this`trace
      ensures (trace, issue) == FlushSinks(w, cfg, cfg.sinkNames, window, checkpoint, old(trace))
    {
      hide WindowEvents;
      ghost var names := cfg.sinkNames;
      assert names[0..] == names;
      for n := 0 to |cfg.sinkNames|
        invariant FlushSinks(w, cfg, names, window, checkpoint, old(trace))
               == FlushSinks(w, cfg, names[n..], window, checkpoint, trace)
      {
        var sink := cfg.sinkNames[n];
        assert names[n..][0] == sink && names[n..][1..] == names[n + 1..];
        if sink !in byName { continue; }
        var failed := SendSinkEventsInBatches(sink, byName[sink]);
        if failed.Some? { return Some(SinkIssue(sink, failed.value)); }
      }
      assert names[|names|..] == [];
      return None;
    }

    /** The marking loop of `replay_batch_to_sinks`. */
    method MarkItems(items: seq<Item>, ghost window: Window)
      requires AllGroup(cfg, items, window)
      modifies this`pending, this`pendingRecords, this`pendingBytes
      ensures Now() == MarkWindow(old(Now()), window)
    {
      assert window[..0] == [];
      for n := 0 to |items|
        invariant Now() == MarkWindow(old(Now()), window[..n])
      {
        assert window[..n + 1][..n] == window[..n] && Groups(cfg, items[n], window[n]);
        if !Covers(checkpoint, items[n].entry) { MarkCheckpointPending(items[n].entry); }
      }
      assert window[..|items|] == window;
    }

    /** The end of `replay_batch_to_sinks`: the events are out. */
    method FinishWindow(items: seq<Item>, byName: EventsByName, ghost window: Window) returns (result: FlushResult)
      requires AllGroup(cfg, items, window) && Collects(cfg, byName, window, checkpoint)
      modifies this
      ensures (Now(), result) == Finish(w, cfg, old(Now()), window)
    {
      hide WindowEvents, MarkWindow, AllGroup, Busy, Settle;
      if cfg.hasRuntimeState {
        BusyAreCollected(cfg, byName, window, checkpoint);
        timers := timers - byName.Keys;
      }
      MarkItems(items, window);
      var now := ReadClock();
      if pendingRecords >= AtLeastOne(cfg.flushRecords) || pendingBytes >= AtLeastOne(cfg.flushBytes)
         || now >= lastFlush + AtLeastOne(cfg.flushInterval) {
        var ok := FlushAndCleanUp();
        if !ok { return Failed(RuntimeIssue); }
      }
      return Flushed;
    }

    /** `replay_batch_to_sinks`. */
    method ReplayBatchToSinks(items: seq<Item>, allowDefer: bool, ghost window: Window) returns (result: FlushResult)
      requires AllGroup(cfg, items, window)
      modifies this
      ensures (Now(), result) == FlushWindow(w, cfg, old(Now()), window, allowDefer)
    {
      if items == [] { return Flushed; }
      hide WindowEvents, FlushSinks, Defer, AllGroup, Finish;
      assert window != [] by { SameLength(cfg, items, window); }
      var byName := CollectSinkEvents(cfg, items, checkpoint, window);
      var deferred := false;
      if allowDefer { deferred := SinksDeferredByBatchTimeout(byName, window); }
      if deferred { return Deferred; }
      var issue := SendToSinks(byName, window);
      if issue.Some? { return Failed(issue.value); }
      result := FinishWindow(items, byName, window);
    }

    /** `replay_once_inner` behind the reading of checkpoint and entries. */
    method ReplayOnce(entries: seq<Entry>) returns (result: PassResult)
      requires Now() == StartState(w, checkpoint, timers)
      modifies this
      ensures (Now(), result) == Pass(w, cfg, old(checkpoint), old(timers), entries)
    {
      hide FlushWindow, ReachesLimit, Settle, Mark, TargetIssue, Grouped, EventsFor, WindowBytes;
      var expectedLsn: Option<nat> := if checkpoint.Some? then Some(checkpoint.value.lsn + 1) else None;
      var items: seq<Item> := [];
      ghost var window: Window := [];
      var replayed := 0;
      ghost var whole := Pass(w, cfg, checkpoint, timers, entries);
      assert entries[0..] == entries;
      for n := 0 to |entries|
        invariant AllGroup(cfg, items, window)
        invariant whole == PassFrom(w, cfg, Now(), entries[n..], window, expectedLsn, replayed)
      {
        var entry := entries[n];
        assert entries[n..][0] == entry && entries[n..][1..] == entries[n + 1..];
        if expectedLsn.Some? && entry.position.lsn != expectedLsn.value {
          var flushed := ReplayBatchToSinks(items, false, window);
          return Stopped(if flushed.Failed? then flushed.issue else WalIssue);
        }
        var deliveries := cfg.process(entry.record);
        var groups := if deliveries.Failure? then Failure(deliveries.error) else Success(map[]);
        if deliveries.Success? { groups := GroupDeliveriesBySink(cfg, deliveries.value); }
        if groups.Failure? {
          var flushed := ReplayBatchToSinks(items, false, window);
          if flushed.Failed? { return Stopped(flushed.issue); }
          if groups.error.Action() != QuarantineRecord { return Stopped(groups.error); }
          items, window := [], [];
          Act(Quarantine(entry.position.lsn));
          MarkCheckpointPending(entry);
          expectedLsn := Some(entry.position.lsn + 1);
          replayed := replayed + 1;
          continue;
        }
        expectedLsn := Some(entry.position.lsn + 1);
        replayed := replayed + 1;
        items := items + [Item(entry, groups.value)];
        window := window + [Planned(entry, deliveries.value)];
        var full := ReachesWindowPolicy(items, window);
        if full {
          var flushed := ReplayBatchToSinks(items, false, window);
          if flushed.Failed? { return Stopped(flushed.issue); }
          items, window := [], [];
        }
      }
      assert entries[|entries|..] == [];
      var flushed := ReplayBatchToSinks(items, true, window);
      if flushed.Failed? { return Stopped(flushed.issue); }
      if flushed.Deferred? { return PutOff; }
      var ok := FlushAndCleanUp();
      return if ok then Replayed(replayed) else Stopped(RuntimeIssue);
    }

    /** `replay_batch_reaches_window_policy`. */
    method ReachesWindowPolicy(items: seq<Item>, ghost window: Window) returns (full: bool)
      requires AllGroup(cfg, items, window)
      ensures full == ReachesLimit(cfg, window)
    {
      var bytes := 0;
      assert window[..0] == [];
      for n := 0 to |items|
        invariant bytes == WindowBytes(window[..n])
      {
        assert window[..n + 1][..n] == window[..n] && Groups(cfg, items[n], window[n]);
        bytes := SatAdd(bytes, EntryBytes(items[n].entry));
      }
      assert window[..|items|] == window;
      return |items| >= AtLeastOne(cfg.maxRecords) || bytes >= AtLeastOne(cfg.maxBytes);
    }
  }

  /** One turn of the loop over the sinks. */
  lemma DeferTurn(cfg: Config, n: nat, window: Window, checkpoint: Option<Position>, timers: map<string, nat>, now: nat,
                  some: bool)
    requires n < |cfg.sinkNames|
    ensures var sink := cfg.sinkNames[n];
            var events, p := WindowEvents(window, checkpoint, sink), PolicyOf(cfg, sink);
            var started := Started(timers, sink, now);
            && sink in started
            && Defer(cfg, cfg.sinkNames[n..], window, checkpoint, timers, now, some)
               == if events == [] then Defer(cfg, cfg.sinkNames[n + 1..], window, checkpoint, timers, now, some)
                  else if Full(p, events) then (false, timers)
                  else if now >= started[sink] + p.timeout then (false, started)
                  else Defer(cfg, cfg.sinkNames[n + 1..], window, checkpoint, started, now, true)
  {
    hide WindowEvents, Full, PolicyOf;
    var names := cfg.sinkNames[n..];
    assert names[0] == cfg.sinkNames[n] && names[1..] == cfg.sinkNames[n + 1..];
  }

  lemma NoMoreSinks(cfg: Config, window: Window, checkpoint: Option<Position>, timers: map<string, nat>, now: nat,
                    some: bool)
    ensures Defer(cfg, cfg.sinkNames[|cfg.sinkNames|..], window, checkpoint, timers, now, some) == (some, timers)
  {
  }

  lemma NoBytes()
    ensures BytesOf([]) == 0
  {
  }

  lemma SameLength(cfg: Config, items: seq<Item>, window: Window)
    requires AllGroup(cfg, items, window)
    ensures |items| == |window|
  {
  }

  lemma BusyAreCollected(cfg: Config, byName: EventsByName, window: Window, checkpoint: Option<Position>)
    requires Collects(cfg, byName, window, checkpoint)
    ensures byName.Keys == Busy(cfg.sinkNames, window, checkpoint)
  {
    hide WindowEvents;
    forall s ensures s in byName.Keys <==> s in Busy(cfg.sinkNames, window, checkpoint) {
      assert WindowEvents(window, checkpoint, s) == if s in byName then byName[s] else [];
    }
  }
}
