/** What the effects of a replay pass add up to at every checkpoint it writes. */
module ReplayExact {
  import opened Bytes
  import opened Wrappers
  import opened FrameCodec
  import opened SegmentFile
  import opened ReplayPlan
  import opened SinkBatching
  import opened Replay

  /** The events of one entry for one sink: none if the record is quarantined. */
  function EntryEvents(cfg: Config, e: Entry, sink: string): seq<SinkEvent> {
    match Plan(cfg, e.record)
    case Failure(_) => []
    case Success(deliveries) => EventsOfEntry(e, deliveries, sink)
  }

  /** The emission sequence: one record after the other, no windows, no batches. */
  function Emitted(cfg: Config, entries: seq<Entry>, sink: string): seq<SinkEvent> {
    if entries == [] then []
    else Emitted(cfg, entries[..|entries| - 1], sink) + EntryEvents(cfg, entries[|entries| - 1], sink)
  }

  function ToQuarantine(cfg: Config, entries: seq<Entry>): seq<nat> {
    if entries == [] then []
    else
      var e := entries[|entries| - 1];
      ToQuarantine(cfg, entries[..|entries| - 1]) + if Plan(cfg, e.record).Failure? then [e.position.lsn] else []
  }

  /** The trace delivered and quarantined exactly what the first m entries call for. */
  ghost predicate Handled(cfg: Config, entries: seq<Entry>, m: nat, trace: Trace)
    requires m <= |entries|
  {
    && (forall s :: s in cfg.sinkNames ==> Accepted(trace, s) == Emitted(cfg, entries[..m], s))
    && Quarantined(trace) == ToQuarantine(cfg, entries[..m])
  }

  /** Effect e is sound after `trace`. */
  ghost predicate Sound(cfg: Config, entries: seq<Entry>, base: nat, start: Option<Position>, trace: Trace, e: Effect) {
    match e
    case WriteCheckpoint(p, _) =>
      && base < p.lsn <= base + |entries|
      && p == entries[p.lsn - base - 1].nextPosition
      && (LastWrite(trace, start).Some? ==> LastWrite(trace, start).value.lsn < p.lsn)
      && Handled(cfg, entries, p.lsn - base, trace)
    case Cleanup(upTo, keepFrom, _) =>
      && LastWrite(trace, start).Some?
      && upTo == LastWrite(trace, start).value.lsn && keepFrom == LastWrite(trace, start).value.segment
    case Send(sink, batch, metadata, _) => SendsRun(Emitted(cfg, entries, sink), batch, metadata)
    case Quarantine(lsn) => base < lsn <= base + |entries| && Unplannable(cfg, entries[lsn - base - 1].record)
  }

  /** The batch is a run of what the entries emit for the sink, and its metadata says which. */
  ghost predicate SendsRun(all: seq<SinkEvent>, batch: Batch, metadata: Metadata) {
    && IsRun(all, batch) && batch != []
    && exists i :: 0 <= i < |all| && metadata == MetadataOf(batch, all[i].nodeId)
  }

  /** With one node id, the metadata of a batch is that of its own events, whichever event the code took it from. */
  lemma SendsOfOneNode(all: seq<SinkEvent>, batch: Batch, metadata: Metadata, node: seq<byte>)
    requires SendsRun(all, batch, metadata) && OfNode(all, node)
    ensures IsRun(all, batch) && batch != [] && metadata == MetadataOf(batch, batch[0].nodeId)
            && batch[0].nodeId == node
  {
    hide MetadataOf;
    RunKeepsOrder(all, batch);
  }

  /** The record cannot be planned, and for a reason that is the record's own. */
  predicate Unplannable(cfg: Config, r: Record) {
    Plan(cfg, r).Failure? && Plan(cfg, r).error.Action() == QuarantineRecord
  }

  ghost predicate AllSound(cfg: Config, entries: seq<Entry>, base: nat, start: Option<Position>, trace: Trace) {
    forall k :: 0 <= k < |trace| ==> Sound(cfg, entries, base, start, trace[..k], trace[k])
  }

  lemma OneMoreSound(cfg: Config, entries: seq<Entry>, base: nat, start: Option<Position>, trace: Trace, e: Effect)
    requires AllSound(cfg, entries, base, start, trace) && Sound(cfg, entries, base, start, trace, e)
    ensures AllSound(cfg, entries, base, start, trace + [e])
  {
    var more := trace + [e];
    forall k | 0 <= k < |more| ensures Sound(cfg, entries, base, start, more[..k], more[k]) {
      if k < |trace| { assert more[..k] == trace[..k] && more[k] == trace[k]; } else { assert more[..k] == trace; }
    }
  }

  /** The window holds entries b .. n - 1, all of them deliverable. */
  ghost predicate Waiting(cfg: Config, entries: seq<Entry>, b: nat, window: Window) {
    && b + |window| <= |entries|
    && forall i :: 0 <= i < |window| ==>
         window[i].entry == entries[b + i] && Plan(cfg, entries[b + i].record) == Success(window[i].deliveries)
  }

  /** The number of entries at or before the checkpoint. */
  function CoveredUpTo(base: nat, checkpoint: Option<Position>): nat {
    if checkpoint.Some? && checkpoint.value.lsn >= base then checkpoint.value.lsn - base else 0
  }

  /** The frame bytes of the entries from..to. */
  function BytesBetween(entries: seq<Entry>, from: nat, to: nat): nat
    requires from <= to <= |entries|
  {
    if from == to then 0 else BytesBetween(entries, from, to - 1) + EntryBytes(entries[to - 1])
  }

  /** The pending counts are those of the b handled entries that the checkpoint does not cover. */
  ghost predicate Counted(entries: seq<Entry>, base: nat, b: nat, rs: State)
    requires b <= |entries|
  {
    var c := CoveredUpTo(base, rs.checkpoint);
    c <= b && rs.pendingRecords == b - c && rs.pendingBytes == BytesBetween(entries, c, b)
  }

  /** Entries up to b are handled, marked and counted; the checkpoint in memory is the one last written. */
  ghost predicate Settled(cfg: Config, entries: seq<Entry>, base: nat, start: Option<Position>, b: nat, rs: State)
    requires b <= |entries|
  {
    && Handled(cfg, entries, b, rs.trace)
    && AllSound(cfg, entries, base, start, rs.trace)
    && LastWrite(rs.trace, start) == rs.checkpoint
    && Counted(entries, base, b, rs)
    && (rs.checkpoint.Some? ==> rs.checkpoint.value.lsn <= base + b)
    && (rs.pending.Some? ==> b > 0 && rs.pending.value == entries[b - 1].nextPosition
                             && (rs.checkpoint.Some? ==> rs.checkpoint.value.lsn < base + b))
    && (rs.pending.None? ==> rs.checkpoint == if b == 0 then start else Some(entries[b - 1].nextPosition))
  }

  lemma EmittedSnoc(cfg: Config, entries: seq<Entry>, m: nat, sink: string)
    requires m < |entries|
    ensures Emitted(cfg, entries[..m + 1], sink)
            == Emitted(cfg, entries[..m], sink) + EntryEvents(cfg, entries[m], sink)
    ensures ToQuarantine(cfg, entries[..m + 1])
            == ToQuarantine(cfg, entries[..m])
               + if Plan(cfg, entries[m].record).Failure? then [entries[m].position.lsn] else []
  {
    assert entries[..m + 1][..m] == entries[..m];
  }

  lemma WindowSplits(window: Window, checkpoint: Option<Position>, sink: string)
    ensures window == [] ==> WindowEvents(window, checkpoint, sink) == []
    ensures window != [] ==>
              var item := window[|window| - 1];
              WindowEvents(window, checkpoint, sink)
              == WindowEvents(window[..|window| - 1], checkpoint, sink)
                 + (if Covers(checkpoint, item.entry) then [] else EventsOfEntry(item.entry, item.deliveries, sink))
  {
  }

  /** A window's share for a sink is the emission sequence of its entries. */
  lemma {:induction false} WindowIsEmission(cfg: Config, entries: seq<Entry>, base: nat, b: nat, window: Window,
                                            checkpoint: Option<Position>, sink: string)
    requires Contiguous(entries, base) && Waiting(cfg, entries, b, window)
    requires checkpoint.Some? ==> checkpoint.value.lsn <= base + b
    ensures Emitted(cfg, entries[..b], sink) + WindowEvents(window, checkpoint, sink)
            == Emitted(cfg, entries[..b + |window|], sink)
    ensures ToQuarantine(cfg, entries[..b + |window|]) == ToQuarantine(cfg, entries[..b])
    decreases |window|
  {
    hide EventsOfEntry, Plan, Emitted, ToQuarantine, WindowEvents;
    if window == [] {
      WindowSplits(window, checkpoint, sink);
      assert Emitted(cfg, entries[..b], sink) + [] == Emitted(cfg, entries[..b], sink);
    } else {
      var n := |window| - 1;
      WindowSplits(window, checkpoint, sink);
      WindowIsEmission(cfg, entries, base, b, window[..n], checkpoint, sink);
      EmittedSnoc(cfg, entries, b + n, sink);
      assert !Covers(checkpoint, window[n].entry);
      var here := EventsOfEntry(entries[b + n], window[n].deliveries, sink);
      assert EntryEvents(cfg, entries[b + n], sink) == here;
      assert b + |window| == b + n + 1;
      Assoc(Emitted(cfg, entries[..b], sink), WindowEvents(window[..n], checkpoint, sink), here);
    }
  }

  /** Sending a window in name order gives every sink its whole share and nothing to anyone else. */
  lemma {:induction false} FlushSinksAccepts(w: World, cfg: Config, names: seq<string>, window: Window,
                                             checkpoint: Option<Position>, trace: Trace, s: string)
    requires forall i, j :: 0 <= i < j < |names| ==> names[i] != names[j]
    ensures var (out, issue) := FlushSinks(w, cfg, names, window, checkpoint, trace);
            && (issue.None? ==>
                  Accepted(out, s)
                  == Accepted(trace, s) + (if s in names then WindowEvents(window, checkpoint, s) else []))
            && Quarantined(out) == Quarantined(trace)
            && forall start :: LastWrite(out, start) == LastWrite(trace, start)
    decreases |names|
  {
    hide Accepted, Quarantined, LastWrite, WindowEvents;
    if names == [] {
      assert Accepted(trace, s) + [] == Accepted(trace, s);
    } else {
      var events := WindowEvents(window, checkpoint, names[0]);
      var (sent, failed) := SendEvents(w, cfg, names[0], events, trace);
      SendEventsAccepts(w, cfg, names[0], events, trace, s);
      if failed.None? {
        FlushSinksAccepts(w, cfg, names[1..], window, checkpoint, sent, s);
        assert s in names[1..] ==> s != names[0];
        assert s in names <==> s == names[0] || s in names[1..];
        assert Accepted(trace, s) + [] == Accepted(trace, s);
        assert Accepted(sent, s) + [] == Accepted(sent, s);
      }
    }
  }

  lemma SendEventsAccepts(w: World, cfg: Config, sink: string, events: seq<SinkEvent>, trace: Trace, s: string)
    ensures var (out, failed) := SendEvents(w, cfg, sink, events, trace);
            && (s != sink ==> Accepted(out, s) == Accepted(trace, s))
            && (failed.None? ==> Accepted(out, sink) == Accepted(trace, sink) + events)
            && Quarantined(out) == Quarantined(trace)
            && forall start :: LastWrite(out, start) == LastWrite(trace, start)
  {
    hide Accepted, Quarantined, LastWrite;
    assert Accepted(trace, sink) + [] == Accepted(trace, sink);
    if events != [] {
      var p := PolicyOf(cfg, sink);
      BatchesPartition(p, [], events);
      assert [] + events == events;
      SendAllAccepts(w, sink, Batches(p, events), events[0].nodeId, trace, s);
    }
  }

  // ---- soundness of the sends -----------------------------------------------------------------

  lemma {:induction false} EmittedPrefix(cfg: Config, entries: seq<Entry>, m: nat, sink: string)
    requires m <= |entries|
    ensures Emitted(cfg, entries[..m], sink) <= Emitted(cfg, entries, sink)
    decreases |entries| - m
  {
    hide Emitted, EntryEvents;
    if m < |entries| {
      EmittedPrefix(cfg, entries, m + 1, sink);
      EmittedSnoc(cfg, entries, m, sink);
    } else {
      assert entries[..m] == entries;
    }
  }

  /** Every entry emits at most one event for this sink. */
  ghost predicate AtMostOneEach(cfg: Config, entries: seq<Entry>, sink: string) {
    forall n :: 0 <= n < |entries| ==> |EntryEvents(cfg, entries[n], sink)| <= 1
  }

  lemma {:induction false} EmitsOnePerRecord(cfg: Config, entries: seq<Entry>, base: nat, sink: string)
    requires Contiguous(entries, base) && AtMostOneEach(cfg, entries, sink)
    ensures var all := Emitted(cfg, entries, sink);
            OnePerRecord(all) && forall i :: 0 <= i < |all| ==> all[i].lsn <= base + |entries|
    decreases |entries|
  {
    hide EntryEvents, OnePerRecord, InOrder;
    NoEvents();
    if entries != [] {
      var n := |entries| - 1;
      EmitsOnePerRecord(cfg, entries[..n], base, sink);
      LsnOfEvents(cfg, entries[n], sink);
      NextRecord(Emitted(cfg, entries[..n], sink), EntryEvents(cfg, entries[n], sink), entries[n].position.lsn);
    }
  }

  lemma LsnOfEvents(cfg: Config, e: Entry, sink: string)
    ensures forall i :: 0 <= i < |EntryEvents(cfg, e, sink)| ==> EntryEvents(cfg, e, sink)[i].lsn == e.position.lsn
  {
    hide Plan, EventsFor;
  }

  /** The emission sequence is in log order. */
  lemma {:induction false} EmittedInOrder(cfg: Config, entries: seq<Entry>, base: nat, sink: string)
    requires Contiguous(entries, base)
    ensures var all := Emitted(cfg, entries, sink);
            InOrder(all) && forall i :: 0 <= i < |all| ==> all[i].lsn <= base + |entries|
    decreases |entries|
  {
    hide EntryEvents, InOrder, OnePerRecord;
    NoEvents();
    if entries != [] {
      var n := |entries| - 1;
      EmittedInOrder(cfg, entries[..n], base, sink);
      LsnOfEvents(cfg, entries[n], sink);
      NextRecord(Emitted(cfg, entries[..n], sink), EntryEvents(cfg, entries[n], sink), entries[n].position.lsn);
    }
  }

  lemma {:induction false} EmittedOfNode(cfg: Config, entries: seq<Entry>, sink: string, node: seq<byte>)
    requires forall n :: 0 <= n < |entries| ==> entries[n].record.nodeId == node
    ensures OfNode(Emitted(cfg, entries, sink), node)
    decreases |entries|
  {
    if entries != [] {
      EmittedOfNode(cfg, entries[..|entries| - 1], sink, node);
      hide Plan, EventsFor;
    }
  }

  /** A window's share for a sink is a run of the emission sequence. */
  lemma WindowIsRun(cfg: Config, entries: seq<Entry>, base: nat, b: nat, window: Window, checkpoint: Option<Position>,
                    sink: string)
    requires Contiguous(entries, base) && Waiting(cfg, entries, b, window)
    requires checkpoint.Some? ==> checkpoint.value.lsn <= base + b
    ensures WindowEvents(window, checkpoint, sink) != [] ==>
              IsRun(Emitted(cfg, entries, sink), WindowEvents(window, checkpoint, sink))
  {
    hide Emitted, WindowEvents, Contiguous, IsRun;
    WindowIsEmission(cfg, entries, base, b, window, checkpoint, sink);
    EmittedPrefix(cfg, entries, b + |window|, sink);
    var mine := WindowEvents(window, checkpoint, sink);
    if mine != [] { MiddleIsRun(Emitted(cfg, entries, sink), Emitted(cfg, entries[..b], sink), mine); }
  }

  lemma RunHasNode(all: seq<SinkEvent>, batch: Batch)
    requires IsRun(all, batch)
    ensures batch != [] && exists i :: 0 <= i < |all| && all[i].nodeId == batch[0].nodeId
  {
    var from, to :| RunAt(all, batch, from, to);
    assert all[from] == batch[0];
  }

  lemma {:induction false} SendAllSound(w: World, sink: string, batches: seq<Batch>, nodeId: seq<byte>, trace: Trace,
                                        cfg: Config, entries: seq<Entry>, base: nat, start: Option<Position>)
    requires AllSound(cfg, entries, base, start, trace)
    requires forall i :: 0 <= i < |batches| && batches[i] != [] ==> IsRun(Emitted(cfg, entries, sink), batches[i])
    requires exists i :: 0 <= i < |Emitted(cfg, entries, sink)| && Emitted(cfg, entries, sink)[i].nodeId == nodeId
    ensures AllSound(cfg, entries, base, start, SendAll(w, sink, batches, nodeId, trace).0)
    decreases |batches|
  {
    hide Handled, LastWrite, Emitted, IsRun, AllSound;
    if batches != [] && batches[0] != [] {
      var b, outcome := batches[0], w.outcome(|trace|);
      RunHasNode(Emitted(cfg, entries, sink), b);
      var e := Send(sink, b, MetadataOf(b, if |batches| == 1 then nodeId else b[0].nodeId), outcome);
      assert AllSound(cfg, entries, base, start, trace + [e]) by { OneMoreSound(cfg, entries, base, start, trace, e); }
      SendAllSound(w, sink, batches[1..], nodeId, trace + [e], cfg, entries, base, start);
    }
  }

  lemma {:induction false} FlushSinksSound(w: World, cfg: Config, names: seq<string>, window: Window,
                                           checkpoint: Option<Position>, trace: Trace,
                                           entries: seq<Entry>, base: nat, start: Option<Position>)
    requires AllSound(cfg, entries, base, start, trace)
    requires forall s :: WindowEvents(window, checkpoint, s) != [] ==>
               IsRun(Emitted(cfg, entries, s), WindowEvents(window, checkpoint, s))
    ensures AllSound(cfg, entries, base, start, FlushSinks(w, cfg, names, window, checkpoint, trace).0)
    decreases |names|
  {
    hide AllSound, WindowEvents, Emitted, IsRun, Batches, BatchesFrom, Concat, Fits, SendAll;
    if names != [] {
      var events := WindowEvents(window, checkpoint, names[0]);
      if events != [] {
        var all, batches := Emitted(cfg, entries, names[0]), Batches(PolicyOf(cfg, names[0]), events);
        BatchesOfAll(PolicyOf(cfg, names[0]), events);
        RunHasNode(all, events);
        forall i | 0 <= i < |batches| && batches[i] != [] ensures IsRun(all, batches[i]) {
          BatchOfRunIsRun(all, events, batches, i);
        }
        SendAllSound(w, names[0], batches, events[0].nodeId, trace, cfg, entries, base, start);
      }
      FlushSinksSound(w, cfg, names[1..], window, checkpoint, SendEvents(w, cfg, names[0], events, trace).0, entries,
                      base, start);
    }
  }

  // ---- flushing keeps the books ---------------------------------------------------------------

  function SumBytes(window: Window): nat {
    if window == [] then 0 else SumBytes(window[..|window| - 1]) + EntryBytes(window[|window| - 1].entry)
  }

  ghost predicate NoneCovered(checkpoint: Option<Position>, window: Window) {
    forall i :: 0 <= i < |window| ==> !Covers(checkpoint, window[i].entry)
  }

  lemma {:induction false} UncoveredEvents(window: Window, checkpoint: Option<Position>, sink: string)
    requires NoneCovered(checkpoint, window)
    ensures WindowEvents(window, checkpoint, sink) == WindowEvents(window, None, sink)
  {
    if window != [] { UncoveredEvents(window[..|window| - 1], checkpoint, sink); }
  }

  /** An entry at or before the checkpoint is neither sent nor marked; any other one is both. */
  lemma CoveredIsSkipped(rs: State, window: Window, p: Planned, sink: string)
    ensures var covered := rs.checkpoint.Some? && p.entry.position.lsn <= rs.checkpoint.value.lsn;
            var events := EventsFor(p.deliveries, sink);
            && (covered ==>
                  && WindowEvents(window + [p], rs.checkpoint, sink) == WindowEvents(window, rs.checkpoint, sink)
                  && MarkWindow(rs, window + [p]) == MarkWindow(rs, window))
            && (!covered ==>
                  && WindowEvents(window + [p], rs.checkpoint, sink)
                     == WindowEvents(window, rs.checkpoint, sink)
                        + seq(|events|, i requires 0 <= i < |events| =>
                                SinkEvent(p.entry.record.nodeId, p.entry.position.lsn, events[i]))
                  && MarkWindow(rs, window + [p]).pending == Some(p.entry.nextPosition))
  {
    hide EventsFor, EntryBytes;
    assert (window + [p])[..|window|] == window;
    assert WindowEvents(window, rs.checkpoint, sink) + [] == WindowEvents(window, rs.checkpoint, sink);
  }

  lemma {:induction false} MarkWindowCounts(rs: State, window: Window)
    requires NoneCovered(rs.checkpoint, window)
    ensures MarkWindow(rs, window)
            == rs.(pending := if window == [] then rs.pending else Some(window[|window| - 1].entry.nextPosition),
                   pendingRecords := rs.pendingRecords + |window|, pendingBytes := rs.pendingBytes + SumBytes(window))
  {
    hide EntryBytes;
    if window != [] { MarkWindowCounts(rs, window[..|window| - 1]); }
  }

  lemma {:induction false} BytesOfWindow(entries: seq<Entry>, c: nat, b: nat, window: Window)
    requires c <= b && b + |window| <= |entries|
    requires forall i :: 0 <= i < |window| ==> window[i].entry == entries[b + i]
    ensures BytesBetween(entries, c, b + |window|) == BytesBetween(entries, c, b) + SumBytes(window)
  {
    hide EntryBytes;
    if window != [] { BytesOfWindow(entries, c, b, window[..|window| - 1]); }
  }

  /** Marking the entries of a flushed window leaves the counts exact. */
  lemma MarkWindowKeepsCounts(cfg: Config, entries: seq<Entry>, base: nat, b: nat, rs: State, window: Window)
    requires Contiguous(entries, base) && Waiting(cfg, entries, b, window) && Counted(entries, base, b, rs)
    ensures var out := MarkWindow(rs, window);
            && Counted(entries, base, b + |window|, out)
            && out.checkpoint == rs.checkpoint && out.trace == rs.trace
            && out.pending == if window == [] then rs.pending else Some(window[|window| - 1].entry.nextPosition)
  {
    hide SumBytes, MarkWindow, BytesBetween;
    MarkWindowCounts(rs, window);
    BytesOfWindow(entries, CoveredUpTo(base, rs.checkpoint), b, window);
  }

  /** After a successful write the checkpoint in memory is the one on disk and nothing is pending. After a failed one
      memory is as it was, and the disk holds the old checkpoint or, if the write failed late, the pending one. */
  lemma FlushPendingKeepsMemory(w: World, rs: State, start: Option<Position>)
    requires LastWrite(rs.trace, start) == rs.checkpoint
    ensures var (out, ok) := FlushPending(w, rs);
            && (ok ==> out.pending.None? && LastWrite(out.trace, start) == out.checkpoint
                       && out.checkpoint == if rs.pending.Some? then rs.pending else rs.checkpoint)
            && (ok && rs.pending.Some? ==> out.pendingRecords == 0 && out.pendingBytes == 0)
            && (!ok ==> out == rs.(trace := out.trace) && rs.pending.Some?
                        && LastWrite(out.trace, start)
                           == if w.outcome(|rs.trace|) == Refused then rs.checkpoint else rs.pending)
  {
    if rs.pending.Some? {
      OneMoreEffect(rs.trace, WriteCheckpoint(rs.pending.value, w.outcome(|rs.trace|)), "", start);
    }
  }

  /** Segments are deleted only behind a write that succeeded, up to the checkpoint that is on disk at that moment. */
  lemma CleanupFollowsTheWrite(w: World, rs: State, start: Option<Position>)
    requires LastWrite(rs.trace, start) == rs.checkpoint
    ensures var out := Settle(w, rs).0;
            forall k | |rs.trace| <= k < |out.trace| && out.trace[k].Cleanup? ::
              && LastWrite(out.trace[..k], start) == out.checkpoint
                 == (if rs.pending.Some? then rs.pending else rs.checkpoint)
              && out.checkpoint.Some? && out.pending.None?
              && out.trace[k].upTo == out.checkpoint.value.lsn && out.trace[k].keepFrom == out.checkpoint.value.segment
  {
    FlushPendingKeepsMemory(w, rs, start);
    var (flushed, ok) := FlushPending(w, rs);
    var out := Settle(w, rs).0;
    if ok && flushed.checkpoint.Some? { assert out.trace[..|flushed.trace|] == flushed.trace; }
  }

  /** A flushed window leaves fewer handled records and bytes behind the checkpoint on disk than the checkpoint policy
      allows: no more is sent again after a crash. */
  lemma FlushBoundsRedelivery(w: World, cfg: Config, entries: seq<Entry>, base: nat, start: Option<Position>, b: nat,
                              rs: State, window: Window, allowDefer: bool)
    requires Distinct(cfg.sinkNames) && Contiguous(entries, base) && window != []
    requires Waiting(cfg, entries, b, window) && Settled(cfg, entries, base, start, b, rs)
    ensures var (out, result) := FlushWindow(w, cfg, rs, window, allowDefer);
            var c := CoveredUpTo(base, LastWrite(out.trace, start));
            var to := b + |window|;
            result.Flushed? ==> c <= to && to - c < AtLeastOne(cfg.flushRecords)
                                && BytesBetween(entries, c, to) < AtLeastOne(cfg.flushBytes)
  {
    hide Handled, LastWrite, AllSound, FlushSinks, Defer, MarkWindow, WindowEvents;
    FlushWindowKeepsBooks(w, cfg, entries, base, start, b, rs, window, allowDefer);
    var (out, result) := FlushWindow(w, cfg, rs, window, allowDefer);
    var to := b + |window|;
    if result.Flushed? {
      if out.pending.None? {
        assert entries[to - 1].nextPosition.lsn == base + to;
        assert CoveredUpTo(base, out.checkpoint) == to;
      } else {
        assert out.pendingRecords < AtLeastOne(cfg.flushRecords);
      }
    }
  }

  /** Is a checkpoint due, with so much pending at this time? A setting of zero counts as one. */
  predicate Due(cfg: Config, records: nat, bytes: nat, lastFlush: nat, now: nat) {
    || records >= (if cfg.flushRecords > 0 then cfg.flushRecords else 1)
    || bytes >= (if cfg.flushBytes > 0 then cfg.flushBytes else 1)
    || now >= lastFlush + (if cfg.flushInterval > 0 then cfg.flushInterval else 1)
  }

  /** Nothing was written to the checkpoint file between these two. */
  ghost predicate NothingWritten(before: Trace, after: Trace) {
    before <= after && forall k :: |before| <= k < |after| ==> after[k].Send?
  }

  /** After a flush that read the clock at this tick: everything is persisted if a checkpoint was due with the window
      added to what was pending, and nothing but sends happened otherwise. */
  ghost predicate SettledIfDue(w: World, cfg: Config, rs: State, window: Window, ticks: nat, out: State)
    requires window != []
  {
    var last := Some(window[|window| - 1].entry.nextPosition);
    if Due(cfg, rs.pendingRecords + |window|, rs.pendingBytes + SumBytes(window), rs.lastFlush, w.clock(ticks)) then
      && out.checkpoint == last && out.pending.None? && out.pendingRecords == 0 && out.pendingBytes == 0
      && out.lastFlush == w.clock(ticks + 1)
    else
      && NothingWritten(rs.trace, out.trace) && out.checkpoint == rs.checkpoint && out.pending == last
      && out.lastFlush == rs.lastFlush
  }

  /** A flushed window settles the checkpoint exactly if one of the three limits is reached: with the records and bytes
      pending once it is marked, at the moment the clock is read. Otherwise it only sends. */
  lemma FlushSettlesExactlyWhenDue(w: World, cfg: Config, rs: State, window: Window, allowDefer: bool)
    requires window != [] && NoneCovered(rs.checkpoint, window)
    requires FlushWindow(w, cfg, rs, window, allowDefer).1.Flushed?
    ensures var ticks := rs.ticks + if allowDefer && cfg.hasRuntimeState then 1 else 0;
            SettledIfDue(w, cfg, rs, window, ticks, FlushWindow(w, cfg, rs, window, allowDefer).0)
  {
    hide WindowEvents, FlushSinks, Defer, MarkWindow, EntryBytes, SumBytes, Busy;
    var rs1 := TryDefer(w, cfg, rs, window, allowDefer).1;
    var sent := FlushSinks(w, cfg, cfg.sinkNames, window, rs.checkpoint, rs.trace).0;
    FlushSinksOnlySends(w, cfg, cfg.sinkNames, window, rs.checkpoint, rs.trace);
    var ready := rs1.(trace := sent);
    var busy := Busy(cfg.sinkNames, window, ready.checkpoint);
    MarkWindowCounts(ready.(timers := if cfg.hasRuntimeState then ready.timers - busy else ready.timers), window);
  }

  lemma {:induction false} SendAllOnlySends(w: World, sink: string, batches: seq<Batch>, nodeId: seq<byte>,
                                            trace: Trace)
    ensures NothingWritten(trace, SendAll(w, sink, batches, nodeId, trace).0)
    decreases |batches|
  {
    if batches != [] && batches[0] != [] {
      var b, outcome := batches[0], w.outcome(|trace|);
      var e := Send(sink, b, MetadataOf(b, if |batches| == 1 then nodeId else b[0].nodeId), outcome);
      SendAllOnlySends(w, sink, batches[1..], nodeId, trace + [e]);
    }
  }

  lemma {:induction false} FlushSinksOnlySends(w: World, cfg: Config, names: seq<string>, window: Window,
                                               checkpoint: Option<Position>, trace: Trace)
    ensures NothingWritten(trace, FlushSinks(w, cfg, names, window, checkpoint, trace).0)
    decreases |names|
  {
    hide WindowEvents, SendAll, Batches;
    if names != [] {
      var events := WindowEvents(window, checkpoint, names[0]);
      var sent := SendEvents(w, cfg, names[0], events, trace).0;
      if events != [] {
        SendAllOnlySends(w, names[0], Batches(PolicyOf(cfg, names[0]), events), events[0].nodeId, trace);
      }
      FlushSinksOnlySends(w, cfg, names[1..], window, checkpoint, sent);
    }
  }

  lemma SettleKeepsBooks(w: World, cfg: Config, entries: seq<Entry>, base: nat, start: Option<Position>, b: nat,
                         rs: State)
    requires Contiguous(entries, base) && b <= |entries| && Settled(cfg, entries, base, start, b, rs)
    ensures var (out, ok) := Settle(w, rs);
            && AllSound(cfg, entries, base, start, out.trace)
            && (ok ==> Settled(cfg, entries, base, start, b, out)
                       && out.checkpoint == if b == 0 then start else Some(entries[b - 1].nextPosition))
  {
    hide Accepted, Quarantined, LastWrite, Emitted, ToQuarantine, AllSound;
    var (flushed, ok) := FlushPending(w, rs);
    if rs.pending.Some? {
      var e := WriteCheckpoint(rs.pending.value, w.outcome(|rs.trace|));
      OneMoreSound(cfg, entries, base, start, rs.trace, e);
      assert AllSound(cfg, entries, base, start, flushed.trace);
      SameBooks(cfg, entries, base, start, b, rs.trace, e);
    }
    if ok && flushed.checkpoint.Some? {
      var p := flushed.checkpoint.value;
      var e := Cleanup(p.lsn, p.segment, w.outcome(|flushed.trace|));
      OneMoreSound(cfg, entries, base, start, flushed.trace, e);
      SameBooks(cfg, entries, base, start, b, flushed.trace, e);
    }
  }

  /** Checkpoint writes and cleanups deliver nothing. */
  lemma SameBooks(cfg: Config, entries: seq<Entry>, base: nat, start: Option<Position>, b: nat, trace: Trace, e: Effect)
    requires b <= |entries| && Handled(cfg, entries, b, trace) && (e.WriteCheckpoint? || e.Cleanup?)
    ensures Handled(cfg, entries, b, trace + [e])
    ensures LastWrite(trace + [e], start)
            == if e.WriteCheckpoint? && e.outcome != Refused then Some(e.position) else LastWrite(trace, start)
  {
    hide Accepted, Quarantined, LastWrite, Emitted, ToQuarantine;
    forall s | s in cfg.sinkNames ensures Accepted(trace + [e], s) == Emitted(cfg, entries[..b], s) {
      OneMoreEffect(trace, e, s, start);
    }
    OneMoreEffect(trace, e, "", start);
  }

  ghost predicate Distinct(names: seq<string>) {
    forall i, j :: 0 <= i < j < |names| ==> names[i] != names[j]
  }

  lemma FinishKeepsBooks(w: World, cfg: Config, entries: seq<Entry>, base: nat, start: Option<Position>, b: nat,
                         rs: State, window: Window)
    requires window != [] && Contiguous(entries, base) && Waiting(cfg, entries, b, window)
    requires Handled(cfg, entries, b + |window|, rs.trace) && AllSound(cfg, entries, base, start, rs.trace)
    requires LastWrite(rs.trace, start) == rs.checkpoint && Counted(entries, base, b, rs)
    requires rs.checkpoint.Some? ==> rs.checkpoint.value.lsn <= base + b
    ensures var (out, result) := Finish(w, cfg, rs, window);
            && AllSound(cfg, entries, base, start, out.trace)
            && !result.Deferred?
            && (result.Flushed? ==> Settled(cfg, entries, base, start, b + |window|, out))
  {
    hide Accepted, Quarantined, LastWrite, Emitted, ToQuarantine, AllSound, Settle, MarkWindow, WindowEvents;
    var timers := if cfg.hasRuntimeState then rs.timers - Busy(cfg.sinkNames, window, rs.checkpoint) else rs.timers;
    var ready := rs.(timers := timers);
    MarkWindowKeepsCounts(cfg, entries, base, b, ready, window);
    var marked := MarkWindow(ready, window);
    var rs1 := marked.(ticks := marked.ticks + 1);
    assert Settled(cfg, entries, base, start, b + |window|, rs1);
    SettleKeepsBooks(w, cfg, entries, base, start, b + |window|, rs1);
  }

  /** A flushed window is handled, whatever the batch and checkpoint policies; a deferred one has no effect. */
  lemma FlushWindowKeepsBooks(w: World, cfg: Config, entries: seq<Entry>, base: nat, start: Option<Position>, b: nat,
                              rs: State, window: Window, allowDefer: bool)
    requires Distinct(cfg.sinkNames) && Contiguous(entries, base)
    requires Waiting(cfg, entries, b, window) && Settled(cfg, entries, base, start, b, rs)
    ensures var (out, result) := FlushWindow(w, cfg, rs, window, allowDefer);
            && AllSound(cfg, entries, base, start, out.trace)
            && (result.Flushed? ==> Settled(cfg, entries, base, start, b + |window|, out))
            && (result.Deferred? ==> out.trace == rs.trace && allowDefer)
  {
    hide Accepted, Quarantined, LastWrite, Emitted, ToQuarantine, AllSound, Defer, FlushSinks, Finish, WindowEvents;
    if window != [] {
      var (deferred, rs1) := TryDefer(w, cfg, rs, window, allowDefer);
      if !deferred {
        var (sent, issue) := FlushSinks(w, cfg, cfg.sinkNames, window, rs.checkpoint, rs.trace);
        forall s | WindowEvents(window, rs.checkpoint, s) != []
          ensures IsRun(Emitted(cfg, entries, s), WindowEvents(window, rs.checkpoint, s))
        {
          WindowIsRun(cfg, entries, base, b, window, rs.checkpoint, s);
        }
        FlushSinksSound(w, cfg, cfg.sinkNames, window, rs.checkpoint, rs.trace, entries, base, start);
        if issue.None? {
          FlushSinksHandles(w, cfg, entries, base, b, rs, window, start);
          FinishKeepsBooks(w, cfg, entries, base, start, b, rs1.(trace := sent), window);
        }
      }
    }
  }

  lemma FlushSinksHandles(w: World, cfg: Config, entries: seq<Entry>, base: nat, b: nat, rs: State, window: Window,
                          start: Option<Position>)
    requires Distinct(cfg.sinkNames) && Contiguous(entries, base)
    requires Waiting(cfg, entries, b, window) && Handled(cfg, entries, b, rs.trace)
    requires rs.checkpoint.Some? ==> rs.checkpoint.value.lsn <= base + b
    requires FlushSinks(w, cfg, cfg.sinkNames, window, rs.checkpoint, rs.trace).1.None?
    ensures var sent := FlushSinks(w, cfg, cfg.sinkNames, window, rs.checkpoint, rs.trace).0;
            && Handled(cfg, entries, b + |window|, sent)
            && LastWrite(sent, start) == LastWrite(rs.trace, start)
  {
    hide Accepted, Quarantined, LastWrite, Emitted, ToQuarantine, FlushSinks, WindowEvents;
    var sent := FlushSinks(w, cfg, cfg.sinkNames, window, rs.checkpoint, rs.trace).0;
    forall s | s in cfg.sinkNames ensures Accepted(sent, s) == Emitted(cfg, entries[..b + |window|], s) {
      FlushSinksAccepts(w, cfg, cfg.sinkNames, window, rs.checkpoint, rs.trace, s);
      WindowIsEmission(cfg, entries, base, b, window, rs.checkpoint, s);
    }
    FlushSinksAccepts(w, cfg, cfg.sinkNames, window, rs.checkpoint, rs.trace, "");
    WindowIsEmission(cfg, entries, base, b, window, rs.checkpoint, "");
  }

  // ---- the pass -------------------------------------------------------------------------------

  /** Quarantining entry b keeps the books; nothing may be waiting. */
  lemma QuarantineKeepsBooks(cfg: Config, entries: seq<Entry>, base: nat, start: Option<Position>, b: nat, rs: State)
    requires Contiguous(entries, base) && b < |entries| && Settled(cfg, entries, base, start, b, rs)
    requires Unplannable(cfg, entries[b].record)
    ensures Settled(cfg, entries, base, start, b + 1, QuarantineEntry(rs, entries[b]))
  {
    hide Accepted, Quarantined, LastWrite, Emitted, ToQuarantine, AllSound, Plan;
    var e := Quarantine(entries[b].position.lsn);
    var trace := rs.trace + [e];
    OneMoreSound(cfg, entries, base, start, rs.trace, e);
    forall s | s in cfg.sinkNames ensures Accepted(trace, s) == Emitted(cfg, entries[..b + 1], s) {
      OneMoreEffect(rs.trace, e, s, start);
      EmittedSnoc(cfg, entries, b, s);
      assert Emitted(cfg, entries[..b], s) + [] == Emitted(cfg, entries[..b], s);
      assert Accepted(rs.trace, s) + [] == Accepted(rs.trace, s);
    }
    OneMoreEffect(rs.trace, e, "", start);
    EmittedSnoc(cfg, entries, b, "");
  }

  /** What a pass can rely on when n entries are consumed and the window is waiting. */
  ghost predicate Running(cfg: Config, known: seq<Entry>, tail: seq<Entry>, base: nat, start: Option<Position>, n: nat,
                          rs: State, window: Window, expected: Option<nat>)
  {
    && Distinct(cfg.sinkNames) && Contiguous(known, base)
    && |window| <= n <= |known|
    && Waiting(cfg, known, n - |window|, window)
    && Settled(cfg, known, base, start, n - |window|, rs)
    && expected == (if n == 0 && start.None? then None else Some(base + 1 + n))
    && Halts(cfg, known, tail, base, start)
  }

  /** The entries behind the known ones end the pass: there are none, or the first leaves a gap or stops replay. */
  ghost predicate Halts(cfg: Config, known: seq<Entry>, tail: seq<Entry>, base: nat, start: Option<Position>) {
    tail != [] ==>
      || (tail[0].position.lsn != base + 1 + |known| && (start.Some? || known != []))
      || (Plan(cfg, tail[0].record).Failure? && !Unplannable(cfg, tail[0].record))
  }

  /** What a pass guarantees at its end. */
  ghost predicate EndsWell(cfg: Config, known: seq<Entry>, tail: seq<Entry>, base: nat, start: Option<Position>,
                           count: nat, out: State, result: PassResult)
  {
    && AllSound(cfg, known, base, start, out.trace)
    && (tail != [] ==> result.Stopped?)
    && (result.Replayed? ==>
          && tail == [] && result.count == count
          && Handled(cfg, known, |known|, out.trace)
          && out.checkpoint == (if known == [] then start else Some(known[|known| - 1].nextPosition))
          && LastWrite(out.trace, start) == out.checkpoint)
  }

  lemma PassEndIsSound(w: World, cfg: Config, known: seq<Entry>, tail: seq<Entry>, base: nat,
                       start: Option<Position>, rs: State, window: Window, expected: Option<nat>, count: nat)
    requires Running(cfg, known, tail, base, start, |known|, rs, window, expected)
    ensures var (out, result) := PassFrom(w, cfg, rs, tail, window, expected, count);
            EndsWell(cfg, known, tail, base, start, count, out, result)
  {
    hide Handled, LastWrite, AllSound, FlushWindow, Plan, ReachesLimit, QuarantineEntry, Settle, Contiguous, Waiting;
    var b := |known| - |window|;
    FlushWindowKeepsBooks(w, cfg, known, base, start, b, rs, window, tail == []);
    if tail == [] {
      var (rs1, flushed) := FlushWindow(w, cfg, rs, window, true);
      if flushed.Flushed? { SettleKeepsBooks(w, cfg, known, base, start, |known|, rs1); }
    }
  }

  /** One deliverable entry that does not fill the window. */
  lemma WindowGrows(cfg: Config, known: seq<Entry>, tail: seq<Entry>, base: nat, start: Option<Position>, n: nat,
                    rs: State, window: Window, expected: Option<nat>)
    requires Running(cfg, known, tail, base, start, n, rs, window, expected) && n < |known|
    requires Plan(cfg, known[n].record).Success?
    ensures Running(cfg, known, tail, base, start, n + 1, rs,
                    window + [Planned(known[n], Plan(cfg, known[n].record).value)], Some(known[n].position.lsn + 1))
  {
    hide Settled, Plan;
  }

  /** After a flush nothing waits. */
  lemma WindowEmptied(cfg: Config, known: seq<Entry>, tail: seq<Entry>, base: nat, start: Option<Position>, n: nat,
                      rs: State, window: Window, expected: Option<nat>, rs1: State)
    requires Running(cfg, known, tail, base, start, n, rs, window, expected)
    requires Settled(cfg, known, base, start, n, rs1)
    ensures Running(cfg, known, tail, base, start, n, rs1, [], expected)
  {
    hide Settled, Plan;
  }

  /** A pass over contiguous entries, possibly followed by a gap or a record that stops replay, only has sound effects;
      without trouble it handles them all and leaves the checkpoint behind the last one. */
  lemma {:induction false} PassFromIsSound(w: World, cfg: Config, known: seq<Entry>, tail: seq<Entry>, base: nat,
                                           start: Option<Position>, n: nat, rs: State, window: Window,
                                           expected: Option<nat>, count: nat)
    requires Running(cfg, known, tail, base, start, n, rs, window, expected)
    ensures var (out, result) := PassFrom(w, cfg, rs, known[n..] + tail, window, expected, count);
            EndsWell(cfg, known, tail, base, start, count + |known| - n, out, result)
    decreases |known| - n
  {
    hide EndsWell, FlushWindow, Plan, ReachesLimit, Settled, Contiguous, Waiting, QuarantineEntry;
    var entries := known[n..] + tail;
    if n == |known| {
      assert entries == tail;
      PassEndIsSound(w, cfg, known, tail, base, start, rs, window, expected, count);
    } else {
      var e := known[n];
      assert entries[0] == e && entries[1..] == known[n + 1..] + tail;
      EntryLsn(known, base, n);
      var next := Some(e.position.lsn + 1);
      match Plan(cfg, e.record) {
        case Failure(issue) =>
          FlushWindowKeepsBooks(w, cfg, known, base, start, n - |window|, rs, window, false);
          var (rs1, flushed) := FlushWindow(w, cfg, rs, window, false);
          if issue.Action() != QuarantineRecord || flushed.Failed? {
            StoppedIsSound(cfg, known, tail, base, start, count + |known| - n, rs1);
          } else {
            QuarantineKeepsBooks(cfg, known, base, start, n, rs1);
            NothingWaits(cfg, known, n + 1);
            PassFromIsSound(w, cfg, known, tail, base, start, n + 1, QuarantineEntry(rs1, e), [], next, count + 1);
          }
        case Success(deliveries) =>
          var window' := window + [Planned(e, deliveries)];
          WindowGrows(cfg, known, tail, base, start, n, rs, window, expected);
          if !ReachesLimit(cfg, window') {
            PassFromIsSound(w, cfg, known, tail, base, start, n + 1, rs, window', next, count + 1);
          } else {
            FlushWindowKeepsBooks(w, cfg, known, base, start, n - |window|, rs, window', false);
            var (rs1, flushed) := FlushWindow(w, cfg, rs, window', false);
            if flushed.Failed? {
              StoppedIsSound(cfg, known, tail, base, start, count + |known| - n, rs1);
            } else {
              WindowEmptied(cfg, known, tail, base, start, n + 1, rs, window', next, rs1);
              PassFromIsSound(w, cfg, known, tail, base, start, n + 1, rs1, [], next, count + 1);
            }
          }
      }
    }
  }

  lemma StoppedIsSound(cfg: Config, known: seq<Entry>, tail: seq<Entry>, base: nat, start: Option<Position>, count: nat,
                       out: State)
    requires AllSound(cfg, known, base, start, out.trace)
    ensures forall issue :: EndsWell(cfg, known, tail, base, start, count, out, Stopped(issue))
  {
  }

  lemma NothingDone(cfg: Config, entries: seq<Entry>, base: nat, start: Option<Position>, rs: State)
    requires rs.trace == [] && rs.checkpoint == start && rs.pending.None? && rs.pendingRecords == 0
             && rs.pendingBytes == 0
    requires (start.Some? ==> start.value.lsn == base)
    ensures Settled(cfg, entries, base, start, 0, rs)
  {
    assert entries[..0] == [];
  }

  lemma NothingWaits(cfg: Config, known: seq<Entry>, n: nat)
    requires n <= |known|
    ensures Waiting(cfg, known, n, [])
  {
  }

  lemma EntryLsn(entries: seq<Entry>, base: nat, n: nat)
    requires Contiguous(entries, base) && n < |entries|
    ensures entries[n].position.lsn == base + 1 + n
  {
  }
}
