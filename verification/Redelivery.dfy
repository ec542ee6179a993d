/** How much a crash at any moment of a pass makes the next one send or quarantine again: src/wal/replay.rs. */
module Redelivery {
  import opened Bytes
  import opened Wrappers
  import opened SegmentFile
  import opened ReplayPlan
  import opened SinkBatching
  import opened Replay
  import opened ReplayExact

  // ---- the bound ------------------------------------------------------------------------------

  /** The number of records to quarantine that stand right before entry n, with none to deliver between them. */
  function BadRun(cfg: Config, entries: seq<Entry>, n: nat): (r: nat)
    requires n <= |entries|
    ensures r <= n
  {
    if n == 0 || Plan(cfg, entries[n - 1].record).Success? then 0 else BadRun(cfg, entries, n - 1) + 1
  }

  /** This many of the first n entries may be handled and not covered by the checkpoint. */
  function Slack(cfg: Config, entries: seq<Entry>, n: nat): nat
    requires n <= |entries|
  {
    AtLeastOne(cfg.flushRecords) - 1 + BadRun(cfg, entries, n)
  }

  /** The effect concerns no record behind this LSN. */
  ghost predicate UpTo(eff: Effect, top: nat) {
    match eff
    case Send(_, events, _, _) => forall i :: 0 <= i < |events| ==> events[i].lsn <= top
    case Quarantine(lsn) => lsn <= top
    case _ => true
  }

  /** With n entries handled and c of them covered, the effect is within the window behind them. */
  ghost predicate Reaches(cfg: Config, entries: seq<Entry>, base: nat, c: nat, eff: Effect, n: nat) {
    && n <= |entries| && n <= c + Slack(cfg, entries, n)
    && UpTo(eff, base + n + if eff.Send? then AtLeastOne(cfg.maxRecords) else 0)
  }

  /** What the effect sends or quarantines is at most a window and the slack behind the checkpoint on disk. */
  ghost predicate Within(cfg: Config, entries: seq<Entry>, base: nat, checkpoint: Option<Position>, eff: Effect) {
    eff.Send? || eff.Quarantine? ==>
      exists n: nat :: Reaches(cfg, entries, base, CoveredUpTo(base, checkpoint), eff, n)
  }

  ghost predicate AllWithin(cfg: Config, entries: seq<Entry>, base: nat, start: Option<Position>, trace: Trace) {
    forall k :: 0 <= k < |trace| ==> Within(cfg, entries, base, LastWrite(trace[..k], start), trace[k])
  }

  lemma OneMoreWithin(cfg: Config, entries: seq<Entry>, base: nat, start: Option<Position>, trace: Trace, e: Effect)
    requires AllWithin(cfg, entries, base, start, trace) && Within(cfg, entries, base, LastWrite(trace, start), e)
    ensures AllWithin(cfg, entries, base, start, trace + [e])
  {
    hide Within, LastWrite;
    var more := trace + [e];
    forall k | 0 <= k < |more| ensures Within(cfg, entries, base, LastWrite(more[..k], start), more[k]) {
      if k < |trace| { assert more[..k] == trace[..k] && more[k] == trace[k]; } else { assert more[..k] == trace; }
    }
  }

  // ---- the sends of a window ------------------------------------------------------------------

  ghost predicate AllUpTo(events: seq<SinkEvent>, top: nat) {
    forall i :: 0 <= i < |events| ==> events[i].lsn <= top
  }

  lemma {:induction false} WindowUpTo(cfg: Config, entries: seq<Entry>, base: nat, b: nat, window: Window,
                                      checkpoint: Option<Position>, sink: string)
    requires Contiguous(entries, base) && Waiting(cfg, entries, b, window)
    ensures AllUpTo(WindowEvents(window, checkpoint, sink), base + b + |window|)
    decreases |window|
  {
    hide Plan, EventsFor;
    if window != [] { WindowUpTo(cfg, entries, base, b, window[..|window| - 1], checkpoint, sink); }
  }

  lemma {:induction false} SendAllWithin(w: World, sink: string, batches: seq<Batch>, nodeId: seq<byte>, trace: Trace,
                                         cfg: Config, entries: seq<Entry>, base: nat, start: Option<Position>, n: nat)
    requires AllWithin(cfg, entries, base, start, trace)
    requires n <= |entries| && n <= CoveredUpTo(base, LastWrite(trace, start)) + Slack(cfg, entries, n)
    requires forall i :: 0 <= i < |batches| ==> AllUpTo(batches[i], base + n + AtLeastOne(cfg.maxRecords))
    ensures var out := SendAll(w, sink, batches, nodeId, trace).0;
            AllWithin(cfg, entries, base, start, out) && LastWrite(out, start) == LastWrite(trace, start)
    decreases |batches|
  {
    hide LastWrite, AllWithin, Slack, CoveredUpTo;
    if batches != [] && batches[0] != [] {
      var b, outcome := batches[0], w.outcome(|trace|);
      var e := Send(sink, b, MetadataOf(b, if |batches| == 1 then nodeId else b[0].nodeId), outcome);
      OneMoreEffect(trace, e, "", start);
      assert Reaches(cfg, entries, base, CoveredUpTo(base, LastWrite(trace, start)), e, n);
      OneMoreWithin(cfg, entries, base, start, trace, e);
      SendAllWithin(w, sink, batches[1..], nodeId, trace + [e], cfg, entries, base, start, n);
    }
  }

  lemma BatchesUpTo(p: BatchPolicy, events: seq<SinkEvent>, top: nat)
    requires p.maxEvents >= 1 && AllUpTo(events, top)
    ensures forall i :: 0 <= i < |Batches(p, events)| ==> AllUpTo(Batches(p, events)[i], top)
  {
    hide Batches, BatchesFrom, Concat, Fits;
    BatchesOfAll(p, events);
    forall i | 0 <= i < |Batches(p, events)| ensures AllUpTo(Batches(p, events)[i], top) {
      BatchIsRun(Batches(p, events), i);
    }
  }

  lemma {:induction false} FlushSinksWithin(w: World, cfg: Config, names: seq<string>, window: Window,
                                            checkpoint: Option<Position>, trace: Trace, entries: seq<Entry>, base: nat,
                                            start: Option<Position>, n: nat)
    requires AllWithin(cfg, entries, base, start, trace)
    requires n <= |entries| && n <= CoveredUpTo(base, LastWrite(trace, start)) + Slack(cfg, entries, n)
    requires forall s :: AllUpTo(WindowEvents(window, checkpoint, s), base + n + AtLeastOne(cfg.maxRecords))
    ensures var out := FlushSinks(w, cfg, names, window, checkpoint, trace).0;
            AllWithin(cfg, entries, base, start, out) && LastWrite(out, start) == LastWrite(trace, start)
    decreases |names|
  {
    hide LastWrite, AllWithin, Slack, CoveredUpTo, WindowEvents, SendAll, Batches, AllUpTo;
    if names != [] {
      var p, events := PolicyOf(cfg, names[0]), WindowEvents(window, checkpoint, names[0]);
      if events != [] {
        BatchesUpTo(p, events, base + n + AtLeastOne(cfg.maxRecords));
        SendAllWithin(w, names[0], Batches(p, events), events[0].nodeId, trace, cfg, entries, base, start, n);
      }
      FlushSinksWithin(w, cfg, names[1..], window, checkpoint, SendEvents(w, cfg, names[0], events, trace).0, entries,
                       base, start, n);
    }
  }

  // ---- flushing -------------------------------------------------------------------------------

  lemma SettleWithin(w: World, cfg: Config, entries: seq<Entry>, base: nat, start: Option<Position>, rs: State)
    requires AllWithin(cfg, entries, base, start, rs.trace)
    ensures AllWithin(cfg, entries, base, start, Settle(w, rs).0.trace)
  {
    hide LastWrite, AllWithin;
    var (flushed, ok) := FlushPending(w, rs);
    if rs.pending.Some? {
      OneMoreWithin(cfg, entries, base, start, rs.trace, WriteCheckpoint(rs.pending.value, w.outcome(|rs.trace|)));
    }
    if ok && flushed.checkpoint.Some? {
      var p := flushed.checkpoint.value;
      OneMoreWithin(cfg, entries, base, start, flushed.trace,
                    Cleanup(p.lsn, p.segment, w.outcome(|flushed.trace|)));
    }
  }

  lemma {:induction false} MarkingWritesNothing(rs: State, window: Window)
    ensures MarkWindow(rs, window).trace == rs.trace
  {
    if window != [] { MarkingWritesNothing(rs, window[..|window| - 1]); }
  }

  /** The books of a pass with b entries handled, no more of them pending than the bound allows. */
  ghost predicate Bounded(cfg: Config, entries: seq<Entry>, base: nat, start: Option<Position>, b: nat, rs: State)
    requires b <= |entries|
  {
    && Settled(cfg, entries, base, start, b, rs) && AllWithin(cfg, entries, base, start, rs.trace)
    && rs.pendingRecords <= Slack(cfg, entries, b)
  }

  lemma BoundedReach(cfg: Config, entries: seq<Entry>, base: nat, start: Option<Position>, b: nat, rs: State)
    requires b <= |entries| && Bounded(cfg, entries, base, start, b, rs)
    ensures b <= CoveredUpTo(base, LastWrite(rs.trace, start)) + Slack(cfg, entries, b)
  {
    hide Handled, AllSound, AllWithin, LastWrite;
  }

  lemma FlushKeepsBound(w: World, cfg: Config, entries: seq<Entry>, base: nat, start: Option<Position>, b: nat,
                        rs: State, window: Window, allowDefer: bool)
    requires Distinct(cfg.sinkNames) && Contiguous(entries, base) && |window| <= AtLeastOne(cfg.maxRecords)
    requires Waiting(cfg, entries, b, window) && Bounded(cfg, entries, base, start, b, rs)
    ensures var (out, result) := FlushWindow(w, cfg, rs, window, allowDefer);
            && AllWithin(cfg, entries, base, start, out.trace)
            && (result.Flushed? ==> Bounded(cfg, entries, base, start, b + |window|, out))
  {
    hide LastWrite, AllWithin, Settled, WindowEvents, FlushSinks, Defer, MarkWindow, Settle, CoveredUpTo, BadRun,
         Waiting, Contiguous, AllUpTo;
    if window != [] {
      FlushWindowKeepsBooks(w, cfg, entries, base, start, b, rs, window, allowDefer);
      FlushLeavesLess(w, cfg, entries, base, start, b, rs, window, allowDefer);
      WaitingFits(cfg, entries, b, window);
      BoundedReach(cfg, entries, base, start, b, rs);
      var (deferred, rs1) := TryDefer(w, cfg, rs, window, allowDefer);
      if !deferred {
        var (sent, issue) := FlushSinks(w, cfg, cfg.sinkNames, window, rs.checkpoint, rs.trace);
        forall s
          ensures AllUpTo(WindowEvents(window, rs.checkpoint, s), base + b + AtLeastOne(cfg.maxRecords))
        {
          WindowUpTo(cfg, entries, base, b, window, rs.checkpoint, s);
          UpToMore(WindowEvents(window, rs.checkpoint, s), base + b + |window|, base + b + AtLeastOne(cfg.maxRecords));
        }
        FlushSinksWithin(w, cfg, cfg.sinkNames, window, rs.checkpoint, rs.trace, entries, base, start, b);
        if issue.None? { FinishWithin(w, cfg, entries, base, start, rs1.(trace := sent), window); }
      }
    }
  }

  lemma UpToMore(events: seq<SinkEvent>, top: nat, more: nat)
    requires AllUpTo(events, top) && top <= more
    ensures AllUpTo(events, more)
  {
  }

  lemma FinishWithin(w: World, cfg: Config, entries: seq<Entry>, base: nat, start: Option<Position>, rs: State,
                     window: Window)
    requires AllWithin(cfg, entries, base, start, rs.trace)
    ensures AllWithin(cfg, entries, base, start, Finish(w, cfg, rs, window).0.trace)
  {
    hide AllWithin, Settle, MarkWindow, Busy;
    var timers := if cfg.hasRuntimeState then rs.timers - Busy(cfg.sinkNames, window, rs.checkpoint) else rs.timers;
    MarkingWritesNothing(rs.(timers := timers), window);
    var marked := MarkWindow(rs.(timers := timers), window);
    SettleWithin(w, cfg, entries, base, start, marked.(ticks := marked.ticks + 1));
  }

  lemma FlushLeavesLess(w: World, cfg: Config, entries: seq<Entry>, base: nat, start: Option<Position>, b: nat,
                        rs: State, window: Window, allowDefer: bool)
    requires Distinct(cfg.sinkNames) && Contiguous(entries, base) && window != []
    requires Waiting(cfg, entries, b, window) && Settled(cfg, entries, base, start, b, rs)
    ensures var (out, result) := FlushWindow(w, cfg, rs, window, allowDefer);
            result.Flushed? ==> out.pendingRecords < AtLeastOne(cfg.flushRecords)
  {
    hide Handled, AllSound, LastWrite, FlushWindow, BytesBetween, Waiting, Contiguous;
    FlushBoundsRedelivery(w, cfg, entries, base, start, b, rs, window, allowDefer);
    FlushWindowKeepsBooks(w, cfg, entries, base, start, b, rs, window, allowDefer);
    assert b + |window| <= |entries| by { WaitingFits(cfg, entries, b, window); }
  }

  lemma WaitingFits(cfg: Config, entries: seq<Entry>, b: nat, window: Window)
    requires Waiting(cfg, entries, b, window)
    ensures b + |window| <= |entries|
  {
  }

  lemma QuarantineKeepsBound(cfg: Config, entries: seq<Entry>, base: nat, start: Option<Position>, b: nat, rs: State)
    requires Contiguous(entries, base) && b < |entries| && Bounded(cfg, entries, base, start, b, rs)
    requires Unplannable(cfg, entries[b].record)
    ensures Bounded(cfg, entries, base, start, b + 1, QuarantineEntry(rs, entries[b]))
  {
    hide LastWrite, AllWithin, Settled, Plan, CoveredUpTo;
    var e := Quarantine(entries[b].position.lsn);
    QuarantineKeepsBooks(cfg, entries, base, start, b, rs);
    BoundedReach(cfg, entries, base, start, b, rs);
    assert Reaches(cfg, entries, base, CoveredUpTo(base, LastWrite(rs.trace, start)), e, b + 1);
    OneMoreWithin(cfg, entries, base, start, rs.trace, e);
  }

  // ---- a pass ---------------------------------------------------------------------------------

  lemma SmallWindow(cfg: Config, window: Window)
    requires !ReachesLimit(cfg, window)
    ensures |window| < AtLeastOne(cfg.maxRecords)
  {
  }

  lemma {:induction false} PassFromIsBounded(w: World, cfg: Config, entries: seq<Entry>, base: nat,
                                             start: Option<Position>, n: nat, rs: State, window: Window,
                                             expected: Option<nat>, count: nat)
    requires Running(cfg, entries, [], base, start, n, rs, window, expected)
    requires |window| < AtLeastOne(cfg.maxRecords) && Bounded(cfg, entries, base, start, n - |window|, rs)
    ensures AllWithin(cfg, entries, base, start, PassFrom(w, cfg, rs, entries[n..], window, expected, count).0.trace)
    decreases |entries| - n
  {
    hide FlushWindow, Plan, ReachesLimit, Settled, Contiguous, Waiting, QuarantineEntry, AllWithin, Bounded, Settle;
    var todo, b := entries[n..], n - |window|;
    if n == |entries| {
      FlushKeepsBound(w, cfg, entries, base, start, b, rs, window, true);
      SettleWithin(w, cfg, entries, base, start, FlushWindow(w, cfg, rs, window, true).0);
    } else {
      var e := entries[n];
      assert todo[0] == e && todo[1..] == entries[n + 1..];
      EntryLsn(entries, base, n);
      var next := Some(e.position.lsn + 1);
      match Plan(cfg, e.record) {
        case Failure(issue) =>
          FlushKeepsBound(w, cfg, entries, base, start, b, rs, window, false);
          FlushWindowKeepsBooks(w, cfg, entries, base, start, b, rs, window, false);
          var (rs1, flushed) := FlushWindow(w, cfg, rs, window, false);
          if issue.Action() == QuarantineRecord && !flushed.Failed? {
            QuarantineKeepsBooks(cfg, entries, base, start, n, rs1);
            QuarantineKeepsBound(cfg, entries, base, start, n, rs1);
            NothingWaits(cfg, entries, n + 1);
            PassFromIsBounded(w, cfg, entries, base, start, n + 1, QuarantineEntry(rs1, e), [], next, count + 1);
          }
        case Success(deliveries) =>
          var more := window + [Planned(e, deliveries)];
          WindowGrows(cfg, entries, [], base, start, n, rs, window, expected);
          if !ReachesLimit(cfg, more) {
            SmallWindow(cfg, more);
            PassFromIsBounded(w, cfg, entries, base, start, n + 1, rs, more, next, count + 1);
          } else {
            FlushKeepsBound(w, cfg, entries, base, start, b, rs, more, false);
            FlushWindowKeepsBooks(w, cfg, entries, base, start, b, rs, more, false);
            var (rs1, flushed) := FlushWindow(w, cfg, rs, more, false);
            if !flushed.Failed? {
              WindowEmptied(cfg, entries, [], base, start, n + 1, rs, more, next, rs1);
              PassFromIsBounded(w, cfg, entries, base, start, n + 1, rs1, [], next, count + 1);
            }
          }
      }
    }
  }

  /** Bounded redelivery: at every moment of a pass, under any outcomes, what is being sent or quarantined lies at most
      a window, one less than `flush_records`, and a run of records to quarantine behind the checkpoint on disk. A crash
      at that moment repeats no more than that. */
  lemma RedeliveryIsBounded(w: World, cfg: Config, start: Option<Position>, timers: map<string, nat>,
                            entries: seq<Entry>, base: nat)
    requires Distinct(cfg.sinkNames) && Contiguous(entries, base) && (start.Some? ==> start.value.lsn == base)
    ensures AllWithin(cfg, entries, base, start, Pass(w, cfg, start, timers, entries).0.trace)
  {
    hide PassFrom, Settled, Contiguous, Waiting;
    var rs := StartState(w, start, timers);
    NothingWaits(cfg, entries, 0);
    NothingDone(cfg, entries, base, start, rs);
    assert entries[0..] == entries;
    PassFromIsBounded(w, cfg, entries, base, start, 0, rs, [],
                      if start.Some? then Some(start.value.lsn + 1) else None, 0);
  }

  // ---- the bound is reached -------------------------------------------------------------------

  lemma SettleExtends(w: World, rs: State)
    ensures rs.trace <= Settle(w, rs).0.trace
  {
  }

  /** While records to quarantine follow each other nothing is persisted, and the bound is reached at each of them if it
      was at the first. */
  lemma {:induction false} BadRunUsesTheSlack(w: World, cfg: Config, entries: seq<Entry>, base: nat,
                                              start: Option<Position>, n: nat, rs: State, expected: Option<nat>,
                                              count: nat, j: nat)
    requires Running(cfg, entries, [], base, start, n, rs, [], expected)
    requires forall i :: n <= i < |entries| ==> Unplannable(cfg, entries[i].record)
    requires rs.pendingRecords == Slack(cfg, entries, n)
    ensures var out, k := PassFrom(w, cfg, rs, entries[n..], [], expected, count).0.trace, |rs.trace| + j - n;
            && rs.trace <= out
            && (n <= j < |entries| ==>
                  && k < |out| && out[k] == Quarantine(base + j + 1)
                  && j + 1 == CoveredUpTo(base, LastWrite(out[..k], start)) + Slack(cfg, entries, j + 1))
    decreases |entries| - n
  {
    hide Settle, LastWrite, Settled, Contiguous, Plan, Waiting, CoveredUpTo;
    var todo := entries[n..];
    if n == |entries| {
      SettleExtends(w, rs);
    } else {
      var e := entries[n];
      assert todo[0] == e && todo[1..] == entries[n + 1..];
      EntryLsn(entries, base, n);
      var rs1 := QuarantineEntry(rs, e);
      QuarantineKeepsBooks(cfg, entries, base, start, n, rs);
      NothingWaits(cfg, entries, n + 1);
      BadRunUsesTheSlack(w, cfg, entries, base, start, n + 1, rs1, Some(e.position.lsn + 1), count + 1, j);
      var out := PassFrom(w, cfg, rs1, entries[n + 1..], [], Some(e.position.lsn + 1), count + 1).0.trace;
      if j == n {
        assert out[..|rs.trace|] == rs.trace && out[|rs.trace|] == rs1.trace[|rs.trace|];
        CoveredAndPending(cfg, entries, base, start, n, rs);
      }
    }
  }

  lemma CoveredAndPending(cfg: Config, entries: seq<Entry>, base: nat, start: Option<Position>, b: nat, rs: State)
    requires b <= |entries| && Settled(cfg, entries, base, start, b, rs)
    ensures CoveredUpTo(base, LastWrite(rs.trace, start)) + rs.pendingRecords == b
  {
    hide Handled, AllSound, LastWrite;
  }

  /** The excess is real: with a checkpoint due after every record, a pass over records to quarantine only persists
      nothing before the end, however many there are. */
  lemma QuarantinedRunIsTheExcess(w: World, cfg: Config, start: Option<Position>, timers: map<string, nat>,
                                  entries: seq<Entry>, base: nat, j: nat)
    requires Distinct(cfg.sinkNames) && Contiguous(entries, base) && (start.Some? ==> start.value.lsn == base)
    requires AtLeastOne(cfg.flushRecords) == 1 && j < |entries|
    requires forall i :: 0 <= i < |entries| ==> Unplannable(cfg, entries[i].record)
    ensures var out := Pass(w, cfg, start, timers, entries).0.trace;
            && j < |out| && out[j] == Quarantine(base + j + 1)
            && CoveredUpTo(base, LastWrite(out[..j], start)) == 0 && BadRun(cfg, entries, j + 1) == j + 1
  {
    hide PassFrom, Settled, Contiguous, Waiting, LastWrite, Unplannable;
    var rs := StartState(w, start, timers);
    NothingWaits(cfg, entries, 0);
    NothingDone(cfg, entries, base, start, rs);
    assert entries[0..] == entries;
    BadRunUsesTheSlack(w, cfg, entries, base, start, 0, rs,
                       if start.Some? then Some(start.value.lsn + 1) else None, 0, j);
    BadRunOfAll(cfg, entries, j + 1);
  }

  lemma {:induction false} BadRunOfAll(cfg: Config, entries: seq<Entry>, n: nat)
    requires n <= |entries| && forall i :: 0 <= i < |entries| ==> Unplannable(cfg, entries[i].record)
    ensures BadRun(cfg, entries, n) == n
  {
    hide Plan;
    if n > 0 { BadRunOfAll(cfg, entries, n - 1); }
  }
}
