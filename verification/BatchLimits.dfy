/** The windows a pass makes and the batches it sends, against the settings themselves: src/wal/replay.rs. */
module BatchLimits {
  import opened Bytes
  import opened Wrappers
  import opened SegmentFile
  import opened ReplayPlan
  import opened SinkBatching
  import opened Replay
  import opened ReplayExact

  /** A count or size that saturates as a u64. */
  function Saturated(n: nat): nat {
    if n < U64_LIMIT then n else U64_LIMIT - 1
  }

  // ---- windows --------------------------------------------------------------------------------

  /** The window has as many records or bytes as the settings ask for; a setting of zero counts as one. */
  predicate WindowIsFull(cfg: Config, window: Window) {
    || |window| >= (if cfg.maxRecords > 0 then cfg.maxRecords else 1)
    || Saturated(SumBytes(window)) >= (if cfg.maxBytes > 0 then cfg.maxBytes else 1)
  }

  lemma {:induction false} WindowBytesIsSum(window: Window)
    ensures WindowBytes(window) == Saturated(SumBytes(window))
    decreases |window|
  {
    hide EntryBytes;
    if window != [] { WindowBytesIsSum(window[..|window| - 1]); }
  }

  /** The windows that a pass sends, with this one open: each ends with the entry that makes it full, before an entry
      that cannot be planned, or with the entries. */
  function Windows(cfg: Config, entries: seq<Entry>, window: Window): seq<Window>
    decreases |entries|
  {
    var open := if window == [] then [] else [window];
    if entries == [] then open
    else
      match Plan(cfg, entries[0].record)
      case Failure(_) => open + Windows(cfg, entries[1..], [])
      case Success(deliveries) =>
        var more := window + [Planned(entries[0], deliveries)];
        if WindowIsFull(cfg, more) then [more] + Windows(cfg, entries[1..], []) else Windows(cfg, entries[1..], more)
  }

  // ---- batches --------------------------------------------------------------------------------

  /** The events are more, or have more bytes, than the sink's settings allow a batch of two or more. */
  predicate TooMuch(cfg: Config, sink: string, events: seq<SinkEvent>) {
    var p := cfg.batch(sink);
    || |events| > (if p.maxEvents > 0 then p.maxEvents else 1)
    || (|events| > 1 && Saturated(TotalBytes(events)) > if p.maxBytes > 0 then p.maxBytes else 1)
  }

  /** The batch is events from..to of the sink's share of the window, within the settings, and with the next event of
      the share it would not be. */
  ghost predicate BatchAt(cfg: Config, share: seq<SinkEvent>, sink: string, events: seq<SinkEvent>, from: int,
                          to: int) {
    && 0 <= from < to <= |share| && events == share[from..to]
    && !TooMuch(cfg, sink, events)
    && (to < |share| ==> TooMuch(cfg, sink, share[from..to + 1]))
  }

  ghost predicate IsBatch(cfg: Config, share: seq<SinkEvent>, sink: string, events: seq<SinkEvent>) {
    exists from, to :: BatchAt(cfg, share, sink, events, from, to)
  }

  ghost predicate IsBatchOf(cfg: Config, windows: seq<Window>, eff: Effect)
    requires eff.Send?
  {
    exists n :: 0 <= n < |windows| && IsBatch(cfg, WindowEvents(windows[n], None, eff.sink), eff.sink, eff.events)
  }

  lemma FitsIsNotTooMuch(cfg: Config, sink: string, events: seq<SinkEvent>)
    requires events != []
    ensures Fits(PolicyOf(cfg, sink), events) <==> !TooMuch(cfg, sink, events)
  {
    hide TotalBytes, BytesOf;
    BytesOfIsTotal(events);
  }

  /** The batches of a share are within the settings and as large as these allow. */
  lemma BatchesAreWithin(cfg: Config, share: seq<SinkEvent>, sink: string, i: nat)
    requires i < |Batches(PolicyOf(cfg, sink), share)|
    ensures IsBatch(cfg, share, sink, Batches(PolicyOf(cfg, sink), share)[i])
  {
    hide Fits, BatchesFrom, TooMuch, PolicyOf, Concat;
    var p := PolicyOf(cfg, sink);
    var batches := Batches(p, share);
    BatchesPartition(p, [], share);
    assert [] + share == share;
    BatchIsRun(batches, i);
    var b, from, to := batches[i], Before(batches, i), Before(batches, i + 1);
    FitsNotEmpty(p, b);
    FitsIsNotTooMuch(cfg, sink, b);
    if i + 1 < |batches| {
      BatchIsRun(batches, i + 1);
      FitsNotEmpty(p, batches[i + 1]);
      BatchesAreMaximal(p, [], share, i);
      var more := b + [batches[i + 1][0]];
      assert more == share[from..to + 1];
      FitsIsNotTooMuch(cfg, sink, more);
    } else {
      assert batches[..i + 1] == batches;
    }
    assert BatchAt(cfg, share, sink, b, from, to);
  }

  lemma FitsNotEmpty(p: BatchPolicy, batch: Batch)
    requires Fits(p, batch)
    ensures batch != []
  {
  }

  // ---- effects --------------------------------------------------------------------------------

  /** What happened in between only sends batches of these windows. */
  ghost predicate Sends(cfg: Config, windows: seq<Window>, before: Trace, after: Trace) {
    before <= after
    && forall k :: |before| <= k < |after| && after[k].Send? ==> IsBatchOf(cfg, windows, after[k])
  }

  lemma SendsTwice(cfg: Config, windows: seq<Window>, a: Trace, b: Trace, c: Trace)
    requires Sends(cfg, windows, a, b) && Sends(cfg, windows, b, c)
    ensures Sends(cfg, windows, a, c)
  {
    hide IsBatchOf;
  }

  lemma SendsOfMore(cfg: Config, windows: seq<Window>, left: seq<Window>, right: seq<Window>, a: Trace, b: Trace)
    requires Sends(cfg, windows, a, b)
    ensures Sends(cfg, left + windows + right, a, b)
  {
    hide IsBatch, WindowEvents;
    var all := left + windows + right;
    forall k | |a| <= k < |b| && b[k].Send? ensures IsBatchOf(cfg, all, b[k]) {
      var n :| 0 <= n < |windows| && IsBatch(cfg, WindowEvents(windows[n], None, b[k].sink), b[k].sink, b[k].events);
      assert all[|left| + n] == windows[n];
    }
  }

  lemma {:induction false} SendAllSends(w: World, cfg: Config, window: Window, sink: string, batches: seq<Batch>,
                                        nodeId: seq<byte>, trace: Trace)
    requires forall i :: 0 <= i < |batches| ==> IsBatch(cfg, WindowEvents(window, None, sink), sink, batches[i])
    ensures Sends(cfg, [window], trace, SendAll(w, sink, batches, nodeId, trace).0)
    decreases |batches|
  {
    hide IsBatch, WindowEvents;
    if batches != [] && batches[0] != [] {
      var b, outcome := batches[0], w.outcome(|trace|);
      var e := Send(sink, b, MetadataOf(b, if |batches| == 1 then nodeId else b[0].nodeId), outcome);
      assert [window][0] == window && IsBatchOf(cfg, [window], e);
      SendAllSends(w, cfg, window, sink, batches[1..], nodeId, trace + [e]);
      SendsTwice(cfg, [window], trace, trace + [e], SendAll(w, sink, batches[1..], nodeId, trace + [e]).0);
    }
  }

  lemma {:induction false} FlushSinksSends(w: World, cfg: Config, names: seq<string>, window: Window,
                                           checkpoint: Option<Position>, trace: Trace)
    requires NoneCovered(checkpoint, window)
    ensures Sends(cfg, [window], trace, FlushSinks(w, cfg, names, window, checkpoint, trace).0)
    decreases |names|
  {
    hide WindowEvents, SendAll, Batches, IsBatch, Sends, PolicyOf;
    if names == [] {
      NothingSent(cfg, [window], trace, trace);
    } else {
      var sink := names[0];
      var events := WindowEvents(window, checkpoint, sink);
      UncoveredEvents(window, checkpoint, sink);
      var sent := SendEvents(w, cfg, sink, events, trace).0;
      if events != [] {
        var batches := Batches(PolicyOf(cfg, sink), events);
        forall i | 0 <= i < |batches| ensures IsBatch(cfg, WindowEvents(window, None, sink), sink, batches[i]) {
          BatchesAreWithin(cfg, events, sink, i);
        }
        SendAllSends(w, cfg, window, sink, batches, events[0].nodeId, trace);
      } else {
        NothingSent(cfg, [window], trace, trace);
      }
      if SendEvents(w, cfg, sink, events, trace).1.None? {
        FlushSinksSends(w, cfg, names[1..], window, checkpoint, sent);
        SendsTwice(cfg, [window], trace, sent, FlushSinks(w, cfg, names[1..], window, checkpoint, sent).0);
      }
    }
  }

  lemma NothingSent(cfg: Config, windows: seq<Window>, before: Trace, after: Trace)
    requires before <= after && forall k :: |before| <= k < |after| ==> !after[k].Send?
    ensures Sends(cfg, windows, before, after)
  {
  }

  lemma SettleSendsNothing(w: World, cfg: Config, windows: seq<Window>, rs: State)
    ensures Sends(cfg, windows, rs.trace, Settle(w, rs).0.trace)
  {
  }

  lemma {:induction false} MarkingSendsNothing(rs: State, window: Window)
    ensures MarkWindow(rs, window).trace == rs.trace
  {
    if window != [] { MarkingSendsNothing(rs, window[..|window| - 1]); }
  }

  lemma FinishSendsNothing(w: World, cfg: Config, rs: State, window: Window)
    ensures Sends(cfg, [window], rs.trace, Finish(w, cfg, rs, window).0.trace)
  {
    hide Settle, MarkWindow, Busy, Sends;
    var timers := if cfg.hasRuntimeState then rs.timers - Busy(cfg.sinkNames, window, rs.checkpoint) else rs.timers;
    MarkingSendsNothing(rs.(timers := timers), window);
    var marked := MarkWindow(rs.(timers := timers), window);
    NothingSent(cfg, [window], rs.trace, rs.trace);
    SettleSendsNothing(w, cfg, [window], marked.(ticks := marked.ticks + 1));
  }

  lemma FlushWindowSends(w: World, cfg: Config, rs: State, window: Window, allowDefer: bool)
    requires NoneCovered(rs.checkpoint, window)
    ensures Sends(cfg, if window == [] then [] else [window], rs.trace,
                  FlushWindow(w, cfg, rs, window, allowDefer).0.trace)
  {
    hide FlushSinks, Finish, Defer, Sends, NoneCovered;
    var windows := if window == [] then [] else [window];
    NothingSent(cfg, windows, rs.trace, rs.trace);
    if window != [] {
      var (deferred, rs1) := TryDefer(w, cfg, rs, window, allowDefer);
      if !deferred {
        var (sent, issue) := FlushSinks(w, cfg, cfg.sinkNames, window, rs.checkpoint, rs.trace);
        FlushSinksSends(w, cfg, cfg.sinkNames, window, rs.checkpoint, rs.trace);
        if issue.None? {
          var ready := rs1.(trace := sent);
          FinishSendsNothing(w, cfg, ready, window);
          SendsTwice(cfg, [window], rs.trace, sent, Finish(w, cfg, ready, window).0.trace);
        }
      }
    }
  }

  // ---- a pass ---------------------------------------------------------------------------------

  lemma FullIsLimit(cfg: Config, window: Window)
    ensures ReachesLimit(cfg, window) <==> WindowIsFull(cfg, window)
  {
    hide WindowBytes, SumBytes;
    WindowBytesIsSum(window);
  }

  lemma NoneCoveredHere(cfg: Config, entries: seq<Entry>, base: nat, start: Option<Position>, b: nat, rs: State,
                        window: Window)
    requires Contiguous(entries, base) && Waiting(cfg, entries, b, window) && Settled(cfg, entries, base, start, b, rs)
    ensures NoneCovered(rs.checkpoint, window)
  {
    hide Handled, AllSound, LastWrite, BytesBetween, Plan;
  }

  lemma {:induction false} PassFromSends(w: World, cfg: Config, known: seq<Entry>, base: nat, start: Option<Position>,
                                         n: nat, rs: State, window: Window, expected: Option<nat>, count: nat)
    requires Running(cfg, known, [], base, start, n, rs, window, expected)
    ensures Sends(cfg, Windows(cfg, known[n..], window), rs.trace,
                  PassFrom(w, cfg, rs, known[n..], window, expected, count).0.trace)
    decreases |known| - n
  {
    hide FlushWindow, Plan, ReachesLimit, WindowIsFull, Settled, Contiguous, Waiting, QuarantineEntry, Sends, Settle,
         NoneCovered;
    var todo, b := known[n..], n - |window|;
    NoneCoveredHere(cfg, known, base, start, b, rs, window);
    var open := if window == [] then [] else [window];
    if n == |known| {
      FlushWindowSends(w, cfg, rs, window, true);
      var rs1 := FlushWindow(w, cfg, rs, window, true).0;
      SettleSendsNothing(w, cfg, open, rs1);
      SendsTwice(cfg, open, rs.trace, rs1.trace, Settle(w, rs1).0.trace);
    } else {
      var e := known[n];
      assert todo[0] == e && todo[1..] == known[n + 1..];
      EntryLsn(known, base, n);
      var next := Some(e.position.lsn + 1);
      match Plan(cfg, e.record) {
        case Failure(issue) =>
          FlushWindowKeepsBooks(w, cfg, known, base, start, b, rs, window, false);
          FlushWindowSends(w, cfg, rs, window, false);
          var (rs1, flushed) := FlushWindow(w, cfg, rs, window, false);
          var later := Windows(cfg, known[n + 1..], []);
          SendsOfMore(cfg, open, [], later, rs.trace, rs1.trace);
          assert [] + open + later == open + later;
          if issue.Action() == QuarantineRecord && !flushed.Failed? {
            QuarantineKeepsBooks(cfg, known, base, start, n, rs1);
            NothingWaits(cfg, known, n + 1);
            var rs2 := QuarantineEntry(rs1, e);
            PassFromSends(w, cfg, known, base, start, n + 1, rs2, [], next, count + 1);
            QuarantineSendsNothing(cfg, open + later, rs1, e);
            var out := PassFrom(w, cfg, rs2, known[n + 1..], [], next, count + 1).0;
            SendsOfMore(cfg, later, open, [], rs2.trace, out.trace);
            assert open + later + [] == open + later;
            SendsTwice(cfg, open + later, rs.trace, rs1.trace, rs2.trace);
            SendsTwice(cfg, open + later, rs.trace, rs2.trace, out.trace);
          }
        case Success(deliveries) =>
          var more := window + [Planned(e, deliveries)];
          FullIsLimit(cfg, more);
          WindowGrows(cfg, known, [], base, start, n, rs, window, expected);
          if !ReachesLimit(cfg, more) {
            PassFromSends(w, cfg, known, base, start, n + 1, rs, more, next, count + 1);
          } else {
            NoneCoveredHere(cfg, known, base, start, b, rs, more);
            FlushWindowKeepsBooks(w, cfg, known, base, start, b, rs, more, false);
            FlushWindowSends(w, cfg, rs, more, false);
            var (rs1, flushed) := FlushWindow(w, cfg, rs, more, false);
            var later := Windows(cfg, known[n + 1..], []);
            SendsOfMore(cfg, [more], [], later, rs.trace, rs1.trace);
            assert [] + [more] + later == [more] + later;
            if !flushed.Failed? {
              WindowEmptied(cfg, known, [], base, start, n + 1, rs, more, next, rs1);
              PassFromSends(w, cfg, known, base, start, n + 1, rs1, [], next, count + 1);
              var out := PassFrom(w, cfg, rs1, known[n + 1..], [], next, count + 1).0;
              SendsOfMore(cfg, later, [more], [], rs1.trace, out.trace);
              assert [more] + later + [] == [more] + later;
              SendsTwice(cfg, [more] + later, rs.trace, rs1.trace, out.trace);
            }
          }
      }
    }
  }

  lemma QuarantineSendsNothing(cfg: Config, windows: seq<Window>, rs: State, e: Entry)
    ensures Sends(cfg, windows, rs.trace, QuarantineEntry(rs, e).trace)
  {
  }

  /** Every batch a pass sends is a part of a sink's share of one of its windows. It has no more events than the sink's
      setting and no more bytes unless it is a single event, and with the next event of the share it would have. */
  lemma BatchesKeepTheSettings(w: World, cfg: Config, start: Option<Position>, timers: map<string, nat>,
                               entries: seq<Entry>, base: nat, k: nat)
    requires Distinct(cfg.sinkNames) && Contiguous(entries, base) && (start.Some? ==> start.value.lsn == base)
    requires k < |Pass(w, cfg, start, timers, entries).0.trace| && Pass(w, cfg, start, timers, entries).0.trace[k].Send?
    ensures IsBatchOf(cfg, Windows(cfg, entries, []), Pass(w, cfg, start, timers, entries).0.trace[k])
  {
    hide PassFrom, Settled, Contiguous, Waiting, IsBatchOf;
    var rs := StartState(w, start, timers);
    NothingWaits(cfg, entries, 0);
    NothingDone(cfg, entries, base, start, rs);
    assert entries[0..] == entries;
    PassFromSends(w, cfg, entries, base, start, 0, rs, [], if start.Some? then Some(start.value.lsn + 1) else None, 0);
  }

  // ---- what the windows are -------------------------------------------------------------------

  function Flattened(windows: seq<Window>): Window {
    if windows == [] then [] else windows[0] + Flattened(windows[1..])
  }

  /** The entries that can be planned, with their deliveries. */
  function Plannable(cfg: Config, entries: seq<Entry>): Window {
    if entries == [] then []
    else
      (match Plan(cfg, entries[0].record) case Failure(_) => [] case Success(d) => [Planned(entries[0], d)])
      + Plannable(cfg, entries[1..])
  }

  lemma NoWindows()
    ensures Flattened([]) == []
  {
  }

  ghost predicate FullAtLast(cfg: Config, window: Window) {
    window != [] && (|window| > 1 ==> !WindowIsFull(cfg, window[..|window| - 1]))
  }

  ghost predicate NoneFullBefore(cfg: Config, windows: seq<Window>) {
    forall n :: 0 <= n < |windows| ==> FullAtLast(cfg, windows[n])
  }

  lemma WindowsInFront(cfg: Config, open: seq<Window>, later: seq<Window>)
    requires NoneFullBefore(cfg, open) && NoneFullBefore(cfg, later)
    ensures NoneFullBefore(cfg, open + later)
  {
    hide FullAtLast;
  }

  lemma FlattenedOpen(open: seq<Window>, later: seq<Window>)
    requires |open| <= 1
    ensures Flattened(open + later) == (if open == [] then [] else open[0]) + Flattened(later)
  {
    if open != [] { assert (open + later)[1..] == later; } else { assert open + later == later; }
  }

  /** The windows hold the plannable entries, once and in order; a window is not full without its last entry. */
  lemma {:induction false} WindowsPartition(cfg: Config, entries: seq<Entry>, window: Window)
    requires window == [] || !WindowIsFull(cfg, window)
    ensures Flattened(Windows(cfg, entries, window)) == window + Plannable(cfg, entries)
    ensures NoneFullBefore(cfg, Windows(cfg, entries, window))
    decreases |entries|
  {
    hide Plan, WindowIsFull, Flattened;
    assert Flattened([]) == [] by { NoWindows(); }
    var open := if window == [] then [] else [window];
    if entries == [] {
      FlattenedOpen(open, []);
      assert open + [] == open && window + [] == window;
      NotFullBefore(cfg, window);
    } else {
      var rest := entries[1..];
      match Plan(cfg, entries[0].record)
      case Failure(_) =>
        var later := Windows(cfg, rest, []);
        WindowsPartition(cfg, rest, []);
        FlattenedOpen(open, later);
        NotFullBefore(cfg, window);
        assert [] + Plannable(cfg, rest) == Plannable(cfg, rest);
        WindowsInFront(cfg, open, later);
      case Success(d) =>
        var p := Planned(entries[0], d);
        var more := window + [p];
        assert more[..|more| - 1] == window;
        assert more + Plannable(cfg, rest) == window + ([p] + Plannable(cfg, rest));
        if WindowIsFull(cfg, more) {
          var later := Windows(cfg, rest, []);
          WindowsPartition(cfg, rest, []);
          FlattenedOpen([more], later);
          assert [] + Plannable(cfg, rest) == Plannable(cfg, rest);
          WindowsInFront(cfg, [more], later);
        } else {
          WindowsPartition(cfg, rest, more);
        }
    }
  }

  lemma NotFullBefore(cfg: Config, window: Window)
    requires window == [] || !WindowIsFull(cfg, window)
    ensures |window| > 1 ==> !WindowIsFull(cfg, window[..|window| - 1])
  {
    hide EntryBytes;
  }
}
