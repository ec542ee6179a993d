/** What becomes of a record that cannot be planned, issue by issue: src/wal/error.rs, src/wal/replay.rs. */
module ReplayIssues {
  import opened Wrappers
  import opened SegmentFile
  import opened ReplayPlan
  import opened SinkBatching
  import opened Replay
  import opened ReplayExact
  import opened ReplayTheorems
  import opened TailDeferral

  // ---- the record's own fault -----------------------------------------------------------------

  /** The body is no event, the processor failed, there is no such project, or a delivery names no sink. */
  predicate RecordIsBad(issue: Issue) {
    issue == EventPayload || issue == ProcessorIssue || issue == ProjectIssue(false) || issue.DeliveryPlan?
  }

  ghost predicate OnlyBadRecords(cfg: Config, entries: seq<Entry>) {
    forall i :: 0 <= i < |entries| && Plan(cfg, entries[i].record).Failure? ==>
      RecordIsBad(Plan(cfg, entries[i].record).error)
  }

  lemma {:induction false} ListedForQuarantine(cfg: Config, entries: seq<Entry>, i: nat)
    requires i < |entries| && Plan(cfg, entries[i].record).Failure?
    ensures entries[i].position.lsn in ToQuarantine(cfg, entries)
  {
    hide Plan;
    var front := entries[..|entries| - 1];
    if i < |front| {
      assert front[i] == entries[i];
      ListedForQuarantine(cfg, front, i);
    }
  }

  lemma {:induction false} TailIsPlannable(cfg: Config, entries: seq<Entry>, window: Window, i: nat)
    requires i < |entries| && |entries| - |TailWindow(cfg, entries, window)| <= i
    ensures Plan(cfg, entries[i].record).Success?
    decreases |entries|
  {
    hide Plan, ReachesLimit;
    if entries != [] {
      var rest := entries[1..];
      match Plan(cfg, entries[0].record) {
        case Failure(_) => if i > 0 { TailIsPlannable(cfg, rest, [], i - 1); }
        case Success(deliveries) =>
          var more := window + [Planned(entries[0], deliveries)];
          if i > 0 { TailIsPlannable(cfg, rest, if ReachesLimit(cfg, more) then [] else more, i - 1); }
      }
    }
  }

  /** With nothing failing outside, bad records hold nothing up: the pass handles every entry or puts its tail off, and
      in both cases each bad record is quarantined. */
  lemma BadRecordsAreQuarantined(w: World, cfg: Config, entries: seq<Entry>, base: nat, start: Option<Position>,
                                 timers: map<string, nat>)
    requires AllDone(w) && OnlyBadRecords(cfg, entries) && Distinct(cfg.sinkNames)
    requires Contiguous(entries, base) && (start.Some? ==> start.value.lsn == base)
    ensures var (out, result) := Pass(w, cfg, start, timers, entries);
            && ((result == Replayed(|entries|) && HandlesAll(cfg, entries, start, out)) || result.PutOff?)
            && forall i :: 0 <= i < |entries| && Plan(cfg, entries[i].record).Failure? ==>
                 entries[i].position.lsn in Quarantined(out.trace)
  {
    hide Plan, Pass, TailWindow, Accepted, Quarantined, Emitted, ToQuarantine;
    assert OnlyQuarantines(cfg, entries);
    PassHandlesAll(w, cfg, entries, base, start, timers);
    PutOffPassHandlesTheRest(w, cfg, start, timers, entries, base);
    var tail := TailWindow(cfg, entries, []);
    var m := if Pass(w, cfg, start, timers, entries).1.PutOff? then |entries| - |tail| else |entries|;
    assert entries[..|entries|] == entries;
    forall i | 0 <= i < |entries| && Plan(cfg, entries[i].record).Failure?
      ensures entries[i].position.lsn in Quarantined(Pass(w, cfg, start, timers, entries).0.trace)
    {
      if i >= m { TailIsPlannable(cfg, entries, [], i); }
      assert entries[..m][i] == entries[i];
      ListedForQuarantine(cfg, entries[..m], i);
    }
  }

  // ---- not the record's fault -----------------------------------------------------------------

  /** Reading or the runtime failed, or the control plane cannot say whether the project exists. */
  predicate ReplayMustStop(issue: Issue) {
    issue == WalIssue || issue == RuntimeIssue || issue == ProjectIssue(true)
  }

  /** What the effect sends, quarantines or persists lies at or before this LSN. */
  ghost predicate NotBeyond(eff: Effect, top: nat) {
    match eff
    case Send(_, events, _, _) => forall i :: 0 <= i < |events| ==> events[i].lsn <= top
    case Quarantine(lsn) => lsn <= top
    case WriteCheckpoint(p, _) => p.lsn <= top
    case Cleanup(upTo, _, _) => upTo <= top
  }

  lemma {:induction false} EmittedUpTo(cfg: Config, entries: seq<Entry>, base: nat, sink: string)
    requires Contiguous(entries, base)
    ensures forall i :: 0 <= i < |Emitted(cfg, entries, sink)| ==>
              Emitted(cfg, entries, sink)[i].lsn <= base + |entries|
    decreases |entries|
  {
    hide Plan, EventsFor;
    if entries != [] { EmittedUpTo(cfg, entries[..|entries| - 1], base, sink); }
  }

  lemma {:induction false} LastWriteUpTo(cfg: Config, entries: seq<Entry>, base: nat, start: Option<Position>,
                                         trace: Trace)
    requires AllSound(cfg, entries, base, start, trace) && (start.Some? ==> start.value.lsn == base)
    ensures LastWrite(trace, start).Some? ==> LastWrite(trace, start).value.lsn <= base + |entries|
  {
    hide SendsRun, Handled, Unplannable;
    if trace != [] {
      var k := |trace| - 1;
      assert Sound(cfg, entries, base, start, trace[..k], trace[k]);
      assert forall i :: 0 <= i < k ==> trace[..k][..i] == trace[..i];
      LastWriteUpTo(cfg, entries, base, start, trace[..k]);
    }
  }

  lemma SoundIsNotBeyond(cfg: Config, entries: seq<Entry>, base: nat, start: Option<Position>, trace: Trace, k: nat)
    requires AllSound(cfg, entries, base, start, trace) && k < |trace|
    requires Contiguous(entries, base) && (start.Some? ==> start.value.lsn == base)
    ensures NotBeyond(trace[k], base + |entries|)
  {
    hide Handled, Unplannable, Emitted, LastWrite;
    assert Sound(cfg, entries, base, start, trace[..k], trace[k]);
    match trace[k]
    case Send(sink, events, _, _) =>
      EmittedUpTo(cfg, entries, base, sink);
      var from, to :| RunAt(Emitted(cfg, entries, sink), events, from, to);
    case Cleanup(_, _, _) =>
      assert forall i :: 0 <= i < k ==> trace[..k][..i] == trace[..i];
      LastWriteUpTo(cfg, entries, base, start, trace[..k]);
    case _ =>
  }

  /** An issue that is not the record's own fault stops the pass at that record, under any outcomes: nothing from it on
      is sent, quarantined or marked. With nothing failing before, the pass reports this very issue. */
  lemma OtherIssuesStop(w: World, cfg: Config, entries: seq<Entry>, base: nat, start: Option<Position>,
                        timers: map<string, nat>, k: nat)
    requires Distinct(cfg.sinkNames) && (start.Some? ==> start.value.lsn == base)
    requires k < |entries| && Contiguous(entries[..k], base) && entries[k].position.lsn == base + k + 1
    requires Plan(cfg, entries[k].record).Failure? && ReplayMustStop(Plan(cfg, entries[k].record).error)
    ensures var (out, result) := Pass(w, cfg, start, timers, entries);
            && result.Stopped?
            && forall j :: 0 <= j < |out.trace| ==> NotBeyond(out.trace[j], base + k)
    ensures AllDone(w) && OnlyBadRecords(cfg, entries[..k]) ==>
              Pass(w, cfg, start, timers, entries).1 == Stopped(Plan(cfg, entries[k].record).error)
  {
    hide Pass, Sound, NotBeyond;
    var known, tail := entries[..k], entries[k..];
    assert known + tail == entries;
    PassIsSound(w, cfg, known, tail, base, start, timers);
    var out := Pass(w, cfg, start, timers, entries).0;
    forall j | 0 <= j < |out.trace| ensures NotBeyond(out.trace[j], base + k) {
      SoundIsNotBeyond(cfg, known, base, start, out.trace, j);
    }
    if AllDone(w) && OnlyBadRecords(cfg, known) { ReportsTheIssue(w, cfg, entries, base, start, timers, k); }
  }

  /** Before it stops, the pass sends what waits: with nothing failing everything before the record is handled. */
  lemma {:induction false} StopHandlesTheRest(w: World, cfg: Config, known: seq<Entry>, tail: seq<Entry>, base: nat,
                                              start: Option<Position>, n: nat, rs: State, window: Window,
                                              expected: Option<nat>, count: nat)
    requires AllDone(w) && OnlyQuarantines(cfg, known) && tail != []
    requires Running(cfg, known, tail, base, start, n, rs, window, expected)
    ensures Handled(cfg, known, |known|, PassFrom(w, cfg, rs, known[n..] + tail, window, expected, count).0.trace)
    decreases |known| - n
  {
    hide FlushWindow, Plan, ReachesLimit, Settled, Contiguous, Waiting, QuarantineEntry, Handled, AllDone;
    var entries := known[n..] + tail;
    if n == |known| {
      assert entries == tail;
      FlushWindowKeepsBooks(w, cfg, known, base, start, n - |window|, rs, window, false);
      FlushWindowSucceeds(w, cfg, rs, window, false);
      SettledIsHandled(cfg, known, base, start, n, FlushWindow(w, cfg, rs, window, false).0);
    } else {
      var e := known[n];
      assert entries[0] == e && entries[1..] == known[n + 1..] + tail;
      EntryLsn(known, base, n);
      var next := Some(e.position.lsn + 1);
      match Plan(cfg, e.record) {
        case Failure(issue) =>
          FlushWindowKeepsBooks(w, cfg, known, base, start, n - |window|, rs, window, false);
          FlushWindowSucceeds(w, cfg, rs, window, false);
          var rs1 := FlushWindow(w, cfg, rs, window, false).0;
          QuarantineKeepsBooks(cfg, known, base, start, n, rs1);
          NothingWaits(cfg, known, n + 1);
          StopHandlesTheRest(w, cfg, known, tail, base, start, n + 1, QuarantineEntry(rs1, e), [], next, count + 1);
        case Success(deliveries) =>
          var more := window + [Planned(e, deliveries)];
          WindowGrows(cfg, known, tail, base, start, n, rs, window, expected);
          if !ReachesLimit(cfg, more) {
            StopHandlesTheRest(w, cfg, known, tail, base, start, n + 1, rs, more, next, count + 1);
          } else {
            FlushWindowKeepsBooks(w, cfg, known, base, start, n - |window|, rs, more, false);
            FlushWindowSucceeds(w, cfg, rs, more, false);
            var rs1 := FlushWindow(w, cfg, rs, more, false).0;
            WindowEmptied(cfg, known, tail, base, start, n + 1, rs, more, next, rs1);
            StopHandlesTheRest(w, cfg, known, tail, base, start, n + 1, rs1, [], next, count + 1);
          }
      }
    }
  }

  /** So a pass that is ended by a gap, or by an issue that stops replay, has handled everything before it. */
  lemma StoppedPassHandlesTheRest(w: World, cfg: Config, known: seq<Entry>, tail: seq<Entry>, base: nat,
                                  start: Option<Position>, timers: map<string, nat>)
    requires AllDone(w) && OnlyBadRecords(cfg, known) && Distinct(cfg.sinkNames) && Contiguous(known, base)
    requires (start.Some? ==> start.value.lsn == base) && tail != [] && Halts(cfg, known, tail, base, start)
    ensures var (out, result) := Pass(w, cfg, start, timers, known + tail);
            result.Stopped? && Handled(cfg, known, |known|, out.trace)
  {
    hide PassFrom, Plan, Contiguous, Settled, Waiting, Handled, AllDone, Halts;
    PassIsSound(w, cfg, known, tail, base, start, timers);
    var rs := StartState(w, start, timers);
    NothingWaits(cfg, known, 0);
    NothingDone(cfg, known, base, start, rs);
    assert known[0..] == known;
    StopHandlesTheRest(w, cfg, known, tail, base, start, 0, rs, [],
                       if start.Some? then Some(start.value.lsn + 1) else None, 0);
  }

  lemma ReportsTheIssue(w: World, cfg: Config, entries: seq<Entry>, base: nat, start: Option<Position>,
                        timers: map<string, nat>, k: nat)
    requires AllDone(w) && k < |entries| && OnlyBadRecords(cfg, entries[..k])
    requires start.Some? ==> start.value.lsn == base
    requires Contiguous(entries[..k], base) && entries[k].position.lsn == base + k + 1
    requires Plan(cfg, entries[k].record).Failure? && ReplayMustStop(Plan(cfg, entries[k].record).error)
    ensures Pass(w, cfg, start, timers, entries).1 == Stopped(Plan(cfg, entries[k].record).error)
  {
    hide PassFrom, Plan, OnlyBadRecords;
    forall i | 0 <= i < k ensures PlannedOrBad(cfg, entries[i]) { BadOrPlanned(cfg, entries[..k], i); }
    forall i | 0 <= i <= k ensures entries[i].position.lsn == base + i + 1 {
      if i < k { EntryLsn(entries[..k], base, i); }
    }
    PassFromStopsAt(w, cfg, StartState(w, start, timers), entries, [],
                    if start.Some? then Some(start.value.lsn + 1) else None, 0, base, k);
  }

  ghost predicate PlannedOrBad(cfg: Config, e: Entry) {
    Plan(cfg, e.record).Failure? ==> RecordIsBad(Plan(cfg, e.record).error)
  }

  lemma BadOrPlanned(cfg: Config, entries: seq<Entry>, i: nat)
    requires OnlyBadRecords(cfg, entries) && i < |entries|
    ensures PlannedOrBad(cfg, entries[i])
  {
  }

  lemma {:induction false} PassFromStopsAt(w: World, cfg: Config, rs: State, entries: seq<Entry>, window: Window,
                                           expected: Option<nat>, count: nat, base: nat, k: nat)
    requires AllDone(w) && k < |entries| && (expected.Some? ==> expected.value == base + 1)
    requires forall i :: 0 <= i <= k ==> entries[i].position.lsn == base + i + 1
    requires forall i :: 0 <= i < k ==> PlannedOrBad(cfg, entries[i])
    requires Plan(cfg, entries[k].record).Failure? && ReplayMustStop(Plan(cfg, entries[k].record).error)
    ensures PassFrom(w, cfg, rs, entries, window, expected, count).1 == Stopped(Plan(cfg, entries[k].record).error)
    decreases |entries|
  {
    hide FlushWindow, Plan, ReachesLimit;
    FlushWindowSucceeds(w, cfg, rs, window, false);
    if k > 0 {
      var e, rest := entries[0], entries[1..];
      assert forall i :: 0 <= i < k ==> rest[i] == entries[i + 1];
      assert PlannedOrBad(cfg, e);
      var next := Some(e.position.lsn + 1);
      match Plan(cfg, e.record) {
        case Failure(issue) =>
          PassFromStopsAt(w, cfg, QuarantineEntry(FlushWindow(w, cfg, rs, window, false).0, e), rest, [], next,
                          count + 1, base + 1, k - 1);
        case Success(deliveries) =>
          var more := window + [Planned(e, deliveries)];
          FlushWindowSucceeds(w, cfg, rs, more, false);
          PassFromStopsAt(w, cfg, rs, rest, more, next, count + 1, base + 1, k - 1);
          PassFromStopsAt(w, cfg, FlushWindow(w, cfg, rs, more, false).0, rest, [], next, count + 1, base + 1, k - 1);
      }
    }
  }
}
