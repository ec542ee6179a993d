/** Main properties of one replay pass: exactness, windowing, failure order, grouping, deferral. */
module ReplayTheorems {
  import opened Bytes
  import opened Wrappers
  import opened FrameCodec
  import opened SegmentFile
  import opened ReplayPlan
  import opened SinkBatching
  import opened Replay
  import opened ReplayExact

  /** Every effect of a pass is sound, whatever the outside world answers. An LSN gap after `known` ends the pass. */
  lemma PassIsSound(w: World, cfg: Config, known: seq<Entry>, tail: seq<Entry>, base: nat, start: Option<Position>,
                    timers: map<string, nat>)
    requires Distinct(cfg.sinkNames) && Contiguous(known, base) && (start.Some? ==> start.value.lsn == base)
    requires Halts(cfg, known, tail, base, start)
    ensures var (out, result) := Pass(w, cfg, start, timers, known + tail);
            EndsWell(cfg, known, tail, base, start, |known|, out, result)
  {
    var rs := StartState(w, start, timers);
    NothingWaits(cfg, known, 0);
    assert known[..0] == [];
    assert Settled(cfg, known, base, start, 0, rs);
    assert known[0..] + tail == known + tail;
    PassFromIsSound(w, cfg, known, tail, base, start, 0, rs, [],
                    if start.Some? then Some(start.value.lsn + 1) else None, 0);
  }

  // ---- gaps -----------------------------------------------------------------------------------

  lemma {:induction false} FlushSinksIssue(w: World, cfg: Config, names: seq<string>, window: Window,
                                           checkpoint: Option<Position>, trace: Trace)
    ensures FlushSinks(w, cfg, names, window, checkpoint, trace).1 != Some(WalIssue)
    decreases |names|
  {
    hide WindowEvents, SendEvents;
    if names != [] {
      FlushSinksIssue(w, cfg, names[1..], window, checkpoint,
                      SendEvents(w, cfg, names[0], WindowEvents(window, checkpoint, names[0]), trace).0);
    }
  }

  lemma FlushWindowIssue(w: World, cfg: Config, rs: State, window: Window, allowDefer: bool)
    ensures FlushWindow(w, cfg, rs, window, allowDefer).1 != Failed(WalIssue)
  {
    hide FlushSinks, Defer, Settle, MarkWindow, ShouldFlush;
    FlushSinksIssue(w, cfg, cfg.sinkNames, window, rs.checkpoint, rs.trace);
  }

  /** A pass over entries with consecutive LSNs from the expected one on never reports a gap. */
  lemma {:induction false} NoGapReported(w: World, cfg: Config, rs: State, entries: seq<Entry>, base: nat,
                                         window: Window, expected: Option<nat>, count: nat)
    requires Contiguous(entries, base) && (expected.None? || expected == Some(base + 1))
    requires forall r :: Plan(cfg, r) != Failure(WalIssue)
    ensures PassFrom(w, cfg, rs, entries, window, expected, count).1 != Stopped(WalIssue)
    decreases |entries|
  {
    hide FlushWindow, Settle, ReachesLimit, Plan;
    FlushWindowIssue(w, cfg, rs, window, true);
    FlushWindowIssue(w, cfg, rs, window, false);
    if entries != [] {
      var e, rest := entries[0], entries[1..];
      EntryLsn(entries, base, 0);
      var next := Some(e.position.lsn + 1);
      assert Contiguous(rest, base + 1);
      var flushed := FlushWindow(w, cfg, rs, window, false).0;
      NoGapReported(w, cfg, QuarantineEntry(flushed, e), rest, base + 1, [], next, count + 1);
      if Plan(cfg, e.record).Success? {
        var more := window + [Planned(e, Plan(cfg, e.record).value)];
        FlushWindowIssue(w, cfg, rs, more, false);
        NoGapReported(w, cfg, rs, rest, base + 1, more, next, count + 1);
        NoGapReported(w, cfg, FlushWindow(w, cfg, rs, more, false).0, rest, base + 1, [], next, count + 1);
      }
    }
  }

  // ---- windowing ------------------------------------------------------------------------------

  ghost predicate AllDone(w: World) {
    forall k :: w.outcome(k) == Done
  }

  /** Whatever the processor rejects, it rejects in a way that quarantines the record. */
  ghost predicate OnlyQuarantines(cfg: Config, entries: seq<Entry>) {
    forall i :: 0 <= i < |entries| && Plan(cfg, entries[i].record).Failure? ==> Unplannable(cfg, entries[i].record)
  }

  lemma {:induction false} SendAllSucceeds(w: World, sink: string, batches: seq<Batch>, nodeId: seq<byte>, trace: Trace)
    requires AllDone(w)
    ensures SendAll(w, sink, batches, nodeId, trace).1.None?
    decreases |batches|
  {
    if batches != [] && batches[0] != [] {
      var b := batches[0];
      var meta := MetadataOf(b, if |batches| == 1 then nodeId else b[0].nodeId);
      SendAllSucceeds(w, sink, batches[1..], nodeId, trace + [Send(sink, b, meta, w.outcome(|trace|))]);
    }
  }

  lemma {:induction false} FlushSinksSucceeds(w: World, cfg: Config, names: seq<string>, window: Window,
                                              checkpoint: Option<Position>, trace: Trace)
    requires AllDone(w)
    ensures FlushSinks(w, cfg, names, window, checkpoint, trace).1.None?
    decreases |names|
  {
    if names != [] {
      var events := WindowEvents(window, checkpoint, names[0]);
      if events != [] {
        SendAllSucceeds(w, names[0], Batches(PolicyOf(cfg, names[0]), events), events[0].nodeId, trace);
      }
      FlushSinksSucceeds(w, cfg, names[1..], window, checkpoint, SendEvents(w, cfg, names[0], events, trace).0);
    }
  }

  lemma FlushWindowSucceeds(w: World, cfg: Config, rs: State, window: Window, allowDefer: bool)
    requires AllDone(w)
    ensures var result := FlushWindow(w, cfg, rs, window, allowDefer).1;
            result.Flushed? || (result.Deferred? && allowDefer && cfg.hasRuntimeState)
  {
    hide Defer, FlushSinks;
    FlushSinksSucceeds(w, cfg, cfg.sinkNames, window, rs.checkpoint, rs.trace);
  }

  /** With nothing failing, a pass over contiguous entries either handles them all or is put off. */
  lemma {:induction false} PassFromSucceeds(w: World, cfg: Config, rs: State, entries: seq<Entry>, window: Window,
                                            expected: Option<nat>, count: nat, base: nat)
    requires AllDone(w) && OnlyQuarantines(cfg, entries) && Contiguous(entries, base)
    requires expected.Some? ==> expected.value == base + 1
    ensures var result := PassFrom(w, cfg, rs, entries, window, expected, count).1;
            result.Replayed? || (result.PutOff? && cfg.hasRuntimeState)
    decreases |entries|
  {
    hide FlushWindow, Plan, ReachesLimit;
    FlushWindowSucceeds(w, cfg, rs, window, entries == []);
    if entries != [] {
      var e, rest := entries[0], entries[1..];
      EntryLsn(entries, base, 0);
      forall i | 0 <= i < |rest| ensures rest[i] == entries[i + 1] {}
      var next := Some(e.position.lsn + 1);
      match Plan(cfg, e.record) {
        case Failure(issue) =>
          PassFromSucceeds(w, cfg, QuarantineEntry(FlushWindow(w, cfg, rs, window, false).0, e), rest, [], next,
                           count + 1, base + 1);
        case Success(deliveries) =>
          var window' := window + [Planned(e, deliveries)];
          FlushWindowSucceeds(w, cfg, rs, window', false);
          PassFromSucceeds(w, cfg, rs, rest, window', next, count + 1, base + 1);
          PassFromSucceeds(w, cfg, FlushWindow(w, cfg, rs, window', false).0, rest, [], next, count + 1, base + 1);
      }
    }
  }

  /** The entries handled, record by record, and the checkpoint behind the last of them. */
  ghost predicate HandlesAll(cfg: Config, entries: seq<Entry>, start: Option<Position>, out: State) {
    && Handled(cfg, entries, |entries|, out.trace)
    && out.checkpoint == (if entries == [] then start else Some(entries[|entries| - 1].nextPosition))
  }

  lemma PassHandlesAll(w: World, cfg: Config, entries: seq<Entry>, base: nat, start: Option<Position>,
                       timers: map<string, nat>)
    requires AllDone(w) && OnlyQuarantines(cfg, entries) && Distinct(cfg.sinkNames)
    requires Contiguous(entries, base) && (start.Some? ==> start.value.lsn == base)
    ensures var (out, result) := Pass(w, cfg, start, timers, entries);
            && (result == Replayed(|entries|) || (result.PutOff? && cfg.hasRuntimeState))
            && (result.Replayed? ==> HandlesAll(cfg, entries, start, out))
  {
    PassIsSound(w, cfg, entries, [], base, start, timers);
    assert entries + [] == entries;
    PassFromSucceeds(w, cfg, StartState(w, start, timers), entries, [],
                     if start.Some? then Some(start.value.lsn + 1) else None, 0, base);
  }

  /** Replay with a pass of its own for every record: the final checkpoint and all effects. */
  function OneByOne(w: World, cfg: Config, start: Option<Position>, timers: map<string, nat>, entries: seq<Entry>)
    : (Option<Position>, Trace)
    decreases |entries|
  {
    if entries == [] then (start, [])
    else
      var first := Pass(w, cfg, start, timers, [entries[0]]).0;
      var (checkpoint, trace) := OneByOne(w, cfg, first.checkpoint, first.timers, entries[1..]);
      (checkpoint, first.trace + trace)
  }

  lemma {:induction false} EmittedConcat(cfg: Config, a: seq<Entry>, b: seq<Entry>, sink: string)
    ensures Emitted(cfg, a + b, sink) == Emitted(cfg, a, sink) + Emitted(cfg, b, sink)
    ensures ToQuarantine(cfg, a + b) == ToQuarantine(cfg, a) + ToQuarantine(cfg, b)
    decreases |b|
  {
    hide EntryEvents, Plan;
    if b == [] {
      assert a + b == a;
    } else {
      var front := b[..|b| - 1];
      EmittedConcat(cfg, a, front, sink);
      assert (a + b)[..|a + b| - 1] == a + front;
    }
  }

  lemma {:induction false} OneByOneHandlesAll(w: World, cfg: Config, entries: seq<Entry>, base: nat,
                                              start: Option<Position>, timers: map<string, nat>, sink: string)
    requires AllDone(w) && OnlyQuarantines(cfg, entries) && Distinct(cfg.sinkNames) && !cfg.hasRuntimeState
    requires Contiguous(entries, base) && (start.Some? ==> start.value.lsn == base)
    ensures var (checkpoint, trace) := OneByOne(w, cfg, start, timers, entries);
            && checkpoint == (if entries == [] then start else Some(entries[|entries| - 1].nextPosition))
            && (sink in cfg.sinkNames ==> Accepted(trace, sink) == Emitted(cfg, entries, sink))
            && Quarantined(trace) == ToQuarantine(cfg, entries)
    decreases |entries|
  {
    if entries != [] {
      hide Accepted, Quarantined, Emitted, ToQuarantine, Pass, Contiguous, OnlyQuarantines, AllDone, Distinct;
      var one, rest := [entries[0]], entries[1..];
      assert entries == one + rest;
      FirstAndRest(cfg, entries, base);
      PassHandlesAll(w, cfg, one, base, start, timers);
      var first := Pass(w, cfg, start, timers, one).0;
      assert one[..1] == one;
      OneByOneHandlesAll(w, cfg, rest, base + 1, first.checkpoint, first.timers, sink);
      AcceptedConcat(first.trace, OneByOne(w, cfg, first.checkpoint, first.timers, rest).1, sink);
      EmittedConcat(cfg, one, rest, sink);
    }
  }

  lemma FirstAndRest(cfg: Config, entries: seq<Entry>, base: nat)
    requires entries != [] && Contiguous(entries, base) && OnlyQuarantines(cfg, entries)
    ensures Contiguous([entries[0]], base) && OnlyQuarantines(cfg, [entries[0]])
    ensures Contiguous(entries[1..], base + 1) && OnlyQuarantines(cfg, entries[1..])
    ensures entries[0].nextPosition.lsn == base + 1
  {
    forall i | 0 <= i < |entries| - 1 ensures entries[1..][i] == entries[i + 1] {}
  }

  /** Two configurations that plan records alike; windows, batches and checkpoint intervals may differ. */
  ghost predicate SamePlanning(a: Config, b: Config) {
    a.process == b.process && a.sinkNames == b.sinkNames
  }

  lemma SamePlans(a: Config, b: Config, r: Record)
    requires SamePlanning(a, b)
    ensures Plan(a, r) == Plan(b, r)
  {
    if a.process(r).Success? { SameTargets(a, b, a.process(r).value); }
  }

  lemma {:induction false} SameTargets(a: Config, b: Config, deliveries: seq<Delivery>)
    requires SamePlanning(a, b)
    ensures TargetIssue(a, deliveries) == TargetIssue(b, deliveries)
  {
    if deliveries != [] { SameTargets(a, b, deliveries[1..]); }
  }

  lemma {:induction false} SameEmission(a: Config, b: Config, entries: seq<Entry>, sink: string)
    requires SamePlanning(a, b)
    ensures Emitted(a, entries, sink) == Emitted(b, entries, sink)
            && ToQuarantine(a, entries) == ToQuarantine(b, entries)
  {
    hide Plan;
    if entries != [] {
      SameEmission(a, b, entries[..|entries| - 1], sink);
      SamePlans(a, b, entries[|entries| - 1].record);
    }
  }

  /** Windowing refines one-at-a-time replay: if nothing fails and nothing is put off, then under any window, batch and
      checkpoint policy every sink takes the same events in the same order, the same records are quarantined and the
      final checkpoint is the same as with one pass per record. */
  lemma WindowingRefinesOneByOne(w: World, cfg: Config, timers: map<string, nat>,
                                 w1: World, single: Config, timers1: map<string, nat>,
                                 entries: seq<Entry>, base: nat, start: Option<Position>)
    requires AllDone(w) && AllDone(w1) && SamePlanning(cfg, single) && !single.hasRuntimeState
    requires OnlyQuarantines(cfg, entries) && Distinct(cfg.sinkNames)
    requires Contiguous(entries, base) && (start.Some? ==> start.value.lsn == base)
    requires !Pass(w, cfg, start, timers, entries).1.PutOff?
    ensures var (out, result) := Pass(w, cfg, start, timers, entries);
            var (checkpoint, trace) := OneByOne(w1, single, start, timers1, entries);
            && result == Replayed(|entries|)
            && out.checkpoint == checkpoint
            && Quarantined(out.trace) == Quarantined(trace)
            && forall s :: s in cfg.sinkNames ==> Accepted(out.trace, s) == Accepted(trace, s)
  {
    hide Accepted, Quarantined, Emitted, ToQuarantine, Pass, OneByOne, Plan;
    PassHandlesAll(w, cfg, entries, base, start, timers);
    assert entries[..|entries|] == entries;
    forall i | 0 <= i < |entries|
      ensures Plan(single, entries[i].record).Failure? ==>
              Plan(single, entries[i].record).error.Action() == QuarantineRecord
    {
      SamePlans(cfg, single, entries[i].record);
    }
    var (out, result) := Pass(w, cfg, start, timers, entries);
    var (checkpoint, trace) := OneByOne(w1, single, start, timers1, entries);
    forall s | s in cfg.sinkNames ensures Accepted(out.trace, s) == Accepted(trace, s) {
      OneByOneHandlesAll(w1, single, entries, base, start, timers1, s);
      SameEmission(cfg, single, entries, s);
    }
    OneByOneHandlesAll(w1, single, entries, base, start, timers1, "");
    SameEmission(cfg, single, entries, "");
  }

  // ---- failure order --------------------------------------------------------------------------

  /** Sink n failed: the sinks before it have the whole window, it has a run of its first batches, the others
      nothing. */
  ghost predicate FailedAtSink(cfg: Config, names: seq<string>, window: Window, checkpoint: Option<Position>,
                               trace: Trace, out: Trace, issue: Issue, n: int)
  {
    && 0 <= n < |names| && issue.SinkIssue? && issue.sink == names[n]
    && (forall i :: 0 <= i < n ==>
          Accepted(out, names[i]) == Accepted(trace, names[i]) + WindowEvents(window, checkpoint, names[i]))
    && (exists k :: SomeBatches(cfg, names[n], WindowEvents(window, checkpoint, names[n]), trace, out, k))
    && (forall i :: n < i < |names| ==> Accepted(out, names[i]) == Accepted(trace, names[i]))
  }

  ghost predicate SomeBatches(cfg: Config, sink: string, events: seq<SinkEvent>, trace: Trace, out: Trace, k: int) {
    var batches := Batches(PolicyOf(cfg, sink), events);
    0 <= k <= |batches| && Accepted(out, sink) == Accepted(trace, sink) + Concat(batches[..k])
  }

  lemma {:induction false} FlushSinksFailsInOrder(w: World, cfg: Config, names: seq<string>, window: Window,
                                                  checkpoint: Option<Position>, trace: Trace)
    requires Distinct(names) && FlushSinks(w, cfg, names, window, checkpoint, trace).1.Some?
    ensures var (out, issue) := FlushSinks(w, cfg, names, window, checkpoint, trace);
            exists n :: FailedAtSink(cfg, names, window, checkpoint, trace, out, issue.value, n)
    decreases |names|
  {
    hide Accepted, WindowEvents, SomeBatches;
    var (out, issue) := FlushSinks(w, cfg, names, window, checkpoint, trace);
    var events, rest := WindowEvents(window, checkpoint, names[0]), names[1..];
    var (sent, failed) := SendEvents(w, cfg, names[0], events, trace);
    forall s ensures s != names[0] ==> Accepted(sent, s) == Accepted(trace, s) {
      SendEventsAccepts(w, cfg, names[0], events, trace, s);
    }
    if failed.Some? {
      SendEventsFails(w, cfg, names[0], events, trace);
      assert FailedAtSink(cfg, names, window, checkpoint, trace, out, issue.value, 0);
    } else {
      SendEventsAccepts(w, cfg, names[0], events, trace, names[0]);
      FlushSinksFailsInOrder(w, cfg, rest, window, checkpoint, sent);
      var n :| FailedAtSink(cfg, rest, window, checkpoint, sent, out, issue.value, n);
      var k :| SomeBatches(cfg, rest[n], WindowEvents(window, checkpoint, rest[n]), sent, out, k);
      OtherSinksUntouched(w, cfg, rest, window, checkpoint, sent, names[0]);
      assert SomeBatches(cfg, names[n + 1], WindowEvents(window, checkpoint, names[n + 1]), trace, out, k) by {
        SameSomeBatches(cfg, rest[n], WindowEvents(window, checkpoint, rest[n]), sent, trace, out, k);
      }
      forall i | 0 <= i < n + 1
        ensures Accepted(out, names[i]) == Accepted(trace, names[i]) + WindowEvents(window, checkpoint, names[i])
      {
        if i > 0 { assert names[i] == rest[i - 1]; }
      }
      forall i | n + 1 < i < |names| ensures Accepted(out, names[i]) == Accepted(trace, names[i]) {
        assert names[i] == rest[i - 1];
      }
      assert FailedAtSink(cfg, names, window, checkpoint, trace, out, issue.value, n + 1);
    }
  }

  lemma SameSomeBatches(cfg: Config, sink: string, events: seq<SinkEvent>, a: Trace, b: Trace, out: Trace, k: int)
    requires SomeBatches(cfg, sink, events, a, out, k) && Accepted(a, sink) == Accepted(b, sink)
    ensures SomeBatches(cfg, sink, events, b, out, k)
  {
  }

  lemma SendEventsFails(w: World, cfg: Config, sink: string, events: seq<SinkEvent>, trace: Trace)
    requires SendEvents(w, cfg, sink, events, trace).1.Some?
    ensures exists k :: SomeBatches(cfg, sink, events, trace, SendEvents(w, cfg, sink, events, trace).0, k)
  {
    var p := PolicyOf(cfg, sink);
    var batches := Batches(p, events);
    BatchesPartition(p, [], events);
    SendAllAccepts(w, sink, batches, events[0].nodeId, trace, sink);
    var (out, failed) := SendEvents(w, cfg, sink, events, trace);
    var k :| 0 <= k <= |batches| && Accepted(out, sink) == Accepted(trace, sink) + Concat(batches[..k]);
    assert SomeBatches(cfg, sink, events, trace, out, k);
  }

  lemma {:induction false} OtherSinksUntouched(w: World, cfg: Config, names: seq<string>, window: Window,
                                               checkpoint: Option<Position>, trace: Trace, s: string)
    requires s !in names
    ensures Accepted(FlushSinks(w, cfg, names, window, checkpoint, trace).0, s) == Accepted(trace, s)
    decreases |names|
  {
    hide Accepted, WindowEvents;
    if names != [] {
      var events := WindowEvents(window, checkpoint, names[0]);
      SendEventsAccepts(w, cfg, names[0], events, trace, s);
      OtherSinksUntouched(w, cfg, names[1..], window, checkpoint, SendEvents(w, cfg, names[0], events, trace).0, s);
    }
  }

  // ---- grouping -------------------------------------------------------------------------------

  function Total(names: seq<string>, deliveries: seq<Delivery>): nat {
    if names == [] then 0 else |EventsFor(deliveries, names[0])| + Total(names[1..], deliveries)
  }

  lemma {:induction false} OneMoreDelivery(names: seq<string>, deliveries: seq<Delivery>, d: Delivery)
    requires Distinct(names)
    ensures Total(names, deliveries + [d]) == Total(names, deliveries) + if d.target in names then 1 else 0
  {
    if names != [] {
      OneMoreDelivery(names[1..], deliveries, d);
      assert (deliveries + [d])[..|deliveries|] == deliveries;
      assert names[0] == d.target ==> d.target !in names[1..];
    }
  }

  lemma {:induction false} TargetsKnown(cfg: Config, deliveries: seq<Delivery>)
    requires TargetIssue(cfg, deliveries).None?
    ensures forall i :: 0 <= i < |deliveries| ==> deliveries[i].target in cfg.sinkNames
  {
    if deliveries != [] {
      TargetsKnown(cfg, deliveries[1..]);
      forall i | 0 <= i < |deliveries| ensures deliveries[i].target in cfg.sinkNames {
        if i > 0 { assert deliveries[i] == deliveries[1..][i - 1]; }
      }
    }
  }

  /** Grouping loses and duplicates nothing: the per-sink lists together are as long as the emission sequence. */
  lemma {:induction false} GroupingConserves(cfg: Config, deliveries: seq<Delivery>)
    requires Distinct(cfg.sinkNames)
    requires forall i :: 0 <= i < |deliveries| ==> deliveries[i].target in cfg.sinkNames
    ensures Total(cfg.sinkNames, deliveries) == |deliveries|
  {
    if deliveries == [] {
      NothingToGroup(cfg.sinkNames);
    } else {
      var front, d := deliveries[..|deliveries| - 1], deliveries[|deliveries| - 1];
      GroupingConserves(cfg, front);
      OneMoreDelivery(cfg.sinkNames, front, d);
      assert deliveries == front + [d];
    }
  }

  lemma {:induction false} NothingToGroup(names: seq<string>)
    ensures Total(names, []) == 0
  {
    if names != [] { NothingToGroup(names[1..]); }
  }

  // ---- deferral -------------------------------------------------------------------------------

  /** This sink gives no reason to send now. */
  predicate Patient(cfg: Config, window: Window, checkpoint: Option<Position>, timers: map<string, nat>, now: nat,
                    sink: string) {
    var events, p := WindowEvents(window, checkpoint, sink), PolicyOf(cfg, sink);
    events == [] || (!Full(p, events) && now < Started(timers, sink, now)[sink] + p.timeout)
  }

  /** In the sink's own settings: there is a timeout, and fewer events and bytes than a batch may have; a limit of zero
      counts as one. */
  lemma FullExactly(cfg: Config, sink: string, events: seq<SinkEvent>)
    ensures var p, bytes := cfg.batch(sink), TotalBytes(events);
            !Full(PolicyOf(cfg, sink), events) <==>
              && p.timeout > 0
              && |events| < (if p.maxEvents > 0 then p.maxEvents else 1)
              && (if bytes < U64_LIMIT then bytes else U64_LIMIT - 1) < (if p.maxBytes > 0 then p.maxBytes else 1)
  {
    hide TotalBytes, BytesOf;
    BytesOfIsTotal(events);
  }

  /** A sink gives no reason to send now if it has no events, or if it is below its limits and its timer, which starts
      now unless it is running, has not reached its timeout. */
  lemma PatientExactly(cfg: Config, window: Window, checkpoint: Option<Position>, timers: map<string, nat>, now: nat,
                       sink: string)
    ensures var events, p := WindowEvents(window, checkpoint, sink), cfg.batch(sink);
            Patient(cfg, window, checkpoint, timers, now, sink) <==>
              || events == []
              || (&& !Full(PolicyOf(cfg, sink), events)
                  && now < (if sink in timers then timers[sink] else now) + p.timeout)
  {
    hide WindowEvents, Full;
  }

  /** A tail batch is put off iff it has events and every sink with events is below both limits with its non-zero
      timeout still running; then every such sink's timer is running. */
  lemma {:induction false} DeferIsExact(cfg: Config, names: seq<string>, window: Window, checkpoint: Option<Position>,
                                        timers: map<string, nat>, now: nat, some: bool)
    requires Distinct(names)
    ensures var (deferred, out) := Defer(cfg, names, window, checkpoint, timers, now, some);
            && (deferred <==> (some || Busy(names, window, checkpoint) != {})
                              && forall s :: s in names ==> Patient(cfg, window, checkpoint, timers, now, s))
            && (forall s :: s in timers ==> s in out && out[s] == timers[s])
            && (forall s :: s in out && s !in timers ==> s in names && out[s] == now)
            && (deferred ==> forall s :: s in Busy(names, window, checkpoint) ==> s in out)
    decreases |names|
  {
    hide WindowEvents, Full, Busy, PolicyOf;
    BusySplits(names, window, checkpoint);
    if names != [] {
      var sink, rest := names[0], names[1..];
      var events, p := WindowEvents(window, checkpoint, sink), PolicyOf(cfg, sink);
      assert forall s :: s in names <==> s == sink || s in rest;
      if events == [] {
        DeferIsExact(cfg, rest, window, checkpoint, timers, now, some);
      } else {
        var started := Started(timers, sink, now);
        assert sink !in rest;
        if !Full(p, events) && now < started[sink] + p.timeout {
          forall s | s in rest
            ensures Patient(cfg, window, checkpoint, started, now, s)
                    == Patient(cfg, window, checkpoint, timers, now, s)
          {
          }
          DeferIsExact(cfg, rest, window, checkpoint, started, now, true);
        } else {
          assert !Patient(cfg, window, checkpoint, timers, now, sink);
        }
      }
    }
  }

  lemma BusySplits(names: seq<string>, window: Window, checkpoint: Option<Position>)
    ensures names == [] ==> Busy(names, window, checkpoint) == {}
    ensures names != [] ==>
              Busy(names, window, checkpoint)
              == Busy(names[1..], window, checkpoint)
                 + (if WindowEvents(window, checkpoint, names[0]) == [] then {} else {names[0]})
  {
    if names != [] {
      assert forall s :: s in names <==> s == names[0] || s in names[1..];
    }
  }
}
