/** What a Parquet sink's directory holds after a run of the pipeline. */
module PipelineParquet {
  import opened Bytes
  import opened Wrappers
  import opened FrameCodec
  import opened LogInvariant
  import opened ReplayPlan
  import opened SinkBatching
  import opened ReplayTheorems
  import opened ParquetCommit
  import opened Pipeline
  import opened PipelineSends

  /** The sends to a sink as attempts to write its files. */
  function AttemptsOf(log: Trace, sink: string): seq<Attempt> {
    if log == [] then []
    else
      AttemptsOf(log[..|log| - 1], sink)
      + match log[|log| - 1]
        case Send(name, events, _, outcome) =>
          if name == sink then [Attempt(events, outcome == Done, outcome != Refused)] else []
        case _ => []
  }

  /** The attempt that the i-th effect, a send to this sink, makes. */
  function IndexOfSend(log: Trace, sink: string, i: nat): (k: nat)
    requires i < |log| && log[i].Send? && log[i].sink == sink
    ensures k < |AttemptsOf(log, sink)|
    ensures AttemptsOf(log, sink)[k] == Attempt(log[i].events, log[i].outcome == Done, log[i].outcome != Refused)
    decreases |log|
  {
    if i == |log| - 1 then |AttemptsOf(log[..|log| - 1], sink)| else IndexOfSend(log[..|log| - 1], sink, i)
  }

  /** Every send to the sink in this log has rows, and they are a run of one of these sequences. */
  ghost predicate SendsRunsOf(log: Trace, sink: string, plans: iset<seq<SinkEvent>>) {
    forall i :: 0 <= i < |log| && log[i].Send? && log[i].sink == sink ==>
      log[i].events != [] && exists p :: p in plans && IsRun(p, log[i].events)
  }

  lemma {:induction false} AttemptsAreRuns(log: Trace, sink: string, plans: iset<seq<SinkEvent>>)
    requires SendsRunsOf(log, sink, plans)
    ensures AttemptsOk(AttemptsOf(log, sink)) && RunsOfPlans(plans, AttemptsOf(log, sink))
    decreases |log|
  {
    hide IsRun;
    if log != [] {
      var n := |log| - 1;
      assert forall i :: 0 <= i < n ==> log[..n][i] == log[i];
      AttemptsAreRuns(log[..n], sink, plans);
    }
  }

  /** What the passes of a run emit for the sink, each under its own configuration. */
  ghost function Plans(ops: seq<Op>, hist: seq<Record>, sink: string): iset<seq<SinkEvent>> {
    iset cfg | cfg in Begun(ops) :: Emission(cfg, hist, sink)
  }

  /** The sends of a run to a sink are attempts to write runs of what its passes emit. */
  lemma RunMakesAttempts(e: Setup, ops: seq<Op>, sink: string)
    ensures var s := Run(e, Initial(), ops);
            && AttemptsOk(AttemptsOf(s.log, sink)) && RunsOfPlans(Plans(ops, s.hist, sink), AttemptsOf(s.log, sink))
            && Numbered(s.hist) && OfNodeAll(s.hist, e.nodeId)
  {
    hide Run, Emission, IsRun, Begun, AttemptsOf, RunsOfPlans, AttemptsOk, Numbered, OfNodeAll;
    var s := Run(e, Initial(), ops);
    RunHolds(e, ops);
    var plans := Plans(ops, s.hist, sink);
    forall i | 0 <= i < |s.log| && s.log[i].Send? && s.log[i].sink == sink
      ensures s.log[i].events != [] && exists p :: p in plans && IsRun(p, s.log[i].events)
    {
      assert s.origin[i] in Begun(ops) && SendOk(s.origin[i], s.hist, e.nodeId, s.log[i]);
      assert Emission(s.origin[i], s.hist, sink) in plans;
    }
    AttemptsAreRuns(s.log, sink, plans);
  }

  /** In any run, under configurations that change in any way from pass to pass, a batch that the sink accepted is in
      its directory row for row if and only if the first attempt of the run that stored a file for its LSN range had the
      same rows. */
  lemma AcceptedIsStoredExactlyWhen(e: Setup, ops: seq<Op>, sink: string, i: nat)
    requires i < |Run(e, Initial(), ops).log|
    requires var eff := Run(e, Initial(), ops).log[i];
             eff.Send? && eff.sink == sink && eff.outcome == Done
    ensures var s := Run(e, Initial(), ops);
            var attempts, rows := AttemptsOf(s.log, sink), s.log[i].events;
            && AttemptsOk(attempts) && rows != []
            && (IsStored(AfterAttempts(map[], e.nodeId, attempts), e.nodeId, rows) <==>
                FirstStored(attempts, rows) == Some(rows))
  {
    hide Run, IsStored, AfterAttempts, AttemptsOf, RunsOfPlans, FirstStored, Numbered, OfNodeAll;
    var s := Run(e, Initial(), ops);
    RunMakesAttempts(e, ops, sink);
    var k := IndexOfSend(s.log, sink, i);
    AcknowledgedStoredExactlyWhen(map[], e.nodeId, AttemptsOf(s.log, sink), k);
  }

  /** If what the passes of a run emit for the sink agrees, then, whatever else changes from pass to pass and whatever
      fails, is retried, rotated, lost in crashes and batched anew: each batch the sink ever accepted is in its
      directory under its name, row for row. */
  lemma RunsStoreAcceptedBatches(e: Setup, ops: seq<Op>, sink: string, i: nat)
    requires i < |Run(e, Initial(), ops).log|
    requires var eff := Run(e, Initial(), ops).log[i];
             eff.Send? && eff.sink == sink && eff.outcome == Done
    requires AllAgree(Plans(ops, Run(e, Initial(), ops).hist, sink))
    ensures var s := Run(e, Initial(), ops);
            && AttemptsOk(AttemptsOf(s.log, sink)) && s.log[i].events != []
            && IsStored(AfterAttempts(map[], e.nodeId, AttemptsOf(s.log, sink)), e.nodeId, s.log[i].events)
  {
    hide Run, Plans, IsStored, AfterAttempts, AttemptsOf, RunsOfPlans, AllAgree, Unambiguous, Numbered, OfNodeAll;
    var s := Run(e, Initial(), ops);
    var attempts := AttemptsOf(s.log, sink);
    RunMakesAttempts(e, ops, sink);
    AgreeingIsUnambiguous(Plans(ops, s.hist, sink), attempts);
    UnambiguousIsStored(e.nodeId, attempts);
    var k := IndexOfSend(s.log, sink, i);
    assert attempts[k].rows == s.log[i].events;
  }

  // ---- one way of planning --------------------------------------------------------------------

  lemma {:induction false} PlannedAlike(a: Config, b: Config, recs: seq<Record>, sink: string)
    requires SamePlanning(a, b)
    ensures Emission(a, recs, sink) == Emission(b, recs, sink)
    decreases |recs|
  {
    hide Plan;
    if recs != [] {
      SamePlans(a, b, recs[|recs| - 1]);
      PlannedAlike(a, b, recs[..|recs| - 1], sink);
    }
  }

  /** Batch, window, checkpoint and timeout settings do not matter: the passes of a run agree if they plan records in
      one way and no record emits two events for the sink. */
  lemma SettingsAgree(e: Setup, ops: seq<Op>, cfg: Config, sink: string)
    requires forall n :: 0 <= n < |ops| && ops[n].BeginPass? ==> SamePlanning(ops[n].cfg, cfg)
    requires var hist := Run(e, Initial(), ops).hist;
             forall n :: 0 <= n < |hist| ==> |RecordEvents(cfg, hist[n], sink)| <= 1
    ensures AllAgree(Plans(ops, Run(e, Initial(), ops).hist, sink))
  {
    hide Run, Emission, Agree, OnePerRecord, InOrder, OfNode, RecordEvents, Numbered, OfNodeAll, AttemptsOf,
         RunsOfPlans, AttemptsOk, SamePlanning;
    var hist := Run(e, Initial(), ops).hist;
    RunMakesAttempts(e, ops, sink);
    EmissionOrder(cfg, hist, e.nodeId, sink);
    AgreesWithItself(Emission(cfg, hist, sink));
    forall p | p in Plans(ops, hist, sink) ensures p == Emission(cfg, hist, sink) {
      var c :| c in Begun(ops) && p == Emission(c, hist, sink);
      PlannedAlike(c, cfg, hist, sink);
    }
  }

  // ---- a processor that changes between two passes ---------------------------------------------

  /** Every record is an event. */
  function KeepAll(r: Record): Result<seq<Delivery>, Issue> {
    Success([Delivery("s", Event(r.payload))])
  }

  /** Every record but those with this payload is an event. */
  function SkipTwo(r: Record): Result<seq<Delivery>, Issue> {
    if r.payload == [2] then Success([]) else KeepAll(r)
  }

  function RecordOf(node: seq<byte>, n: nat, payload: seq<byte>): Record {
    Record([], n, node, Envelope(0, 0, []), payload)
  }

  function Three(node: seq<byte>): seq<Record> {
    [RecordOf(node, 1, [1]), RecordOf(node, 2, [2]), RecordOf(node, 3, [3])]
  }

  lemma EventsOfChoice(cfg: Config, r: Record)
    requires cfg.sinkNames == ["s"]
    ensures cfg.process == KeepAll ==> RecordEvents(cfg, r, "s") == [SinkEvent(r.nodeId, r.lsn, Event(r.payload))]
    ensures cfg.process == SkipTwo ==>
              RecordEvents(cfg, r, "s")
              == if r.payload == [2] then [] else [SinkEvent(r.nodeId, r.lsn, Event(r.payload))]
  {
    var one := [Delivery("s", Event(r.payload))];
    assert !WhiteSpace("s"[0]) && one[1..] == [] && one[..0] == [];
    assert TargetIssue(cfg, one) == TargetIssue(cfg, one[1..]);
    assert EventsFor(one, "s") == EventsFor(one[..0], "s") + [Event(r.payload)];
  }

  lemma EmissionsOfChoice(settings: Config, node: seq<byte>)
    ensures var e1, e2 := SinkEvent(node, 1, Event([1])), SinkEvent(node, 2, Event([2]));
            var e3 := SinkEvent(node, 3, Event([3]));
            && Emission(settings.(process := SkipTwo, sinkNames := ["s"]), Three(node), "s") == [e1, e3]
            && Emission(settings.(process := KeepAll, sinkNames := ["s"]), Three(node), "s") == [e1, e2, e3]
  {
    hide RecordEvents, Emission;
    var hist := Three(node);
    var before := settings.(process := SkipTwo, sinkNames := ["s"]);
    var after := settings.(process := KeepAll, sinkNames := ["s"]);
    var e1, e2, e3 := SinkEvent(node, 1, Event([1])), SinkEvent(node, 2, Event([2])), SinkEvent(node, 3, Event([3]));
    EmissionOfThree(before, hist);
    EmissionOfThree(after, hist);
    forall n | 0 <= n < 3 ensures RecordEvents(before, hist[n], "s") == [[e1], [], [e3]][n] {
      EventsOfChoice(before, hist[n]);
    }
    forall n | 0 <= n < 3 ensures RecordEvents(after, hist[n], "s") == [[e1], [e2], [e3]][n] {
      EventsOfChoice(after, hist[n]);
    }
  }

  /** The processor skips the middle one of three records, and their batch is accepted. Then it is changed to keep all
      of them, and the retry sends the three events. It has the same name and reports success, although it is not
      stored: the middle event is nowhere. Both plans emit at most one event for a record. */
  lemma ProcessorChangeLosesAnEvent(settings: Config, node: seq<byte>)
    ensures var hist := Three(node);
            var before := settings.(process := SkipTwo, sinkNames := ["s"]);
            var after := settings.(process := KeepAll, sinkNames := ["s"]);
            var first, retry := Emission(before, hist, "s"), Emission(after, hist, "s");
            var attempts := [Attempt(first, true, true), Attempt(retry, true, true)];
            && OnePerRecord(first) && OnePerRecord(retry) && |first| == 2 && |retry| == 3
            && AttemptsOk(attempts) && RunsOfPlans(iset{first, retry}, attempts)
            && AfterAttempts(map[], node, attempts) == map[NameOf(first, node) := first]
            && retry[1] !in first
  {
    hide RecordEvents, NameOf, Emission;
    EmissionsOfChoice(settings, node);
    var hist := Three(node);
    var before := settings.(process := SkipTwo, sinkNames := ["s"]);
    var after := settings.(process := KeepAll, sinkNames := ["s"]);
    var e1, e2, e3 := SinkEvent(node, 1, Event([1])), SinkEvent(node, 2, Event([2])), SinkEvent(node, 3, Event([3]));
    var first, retry := [e1, e3], [e1, e2, e3];
    var one, two := Attempt(first, true, true), Attempt(retry, true, true);
    assert RunAt(first, first, 0, 2) && RunAt(retry, retry, 0, 3);
    assert [one, two][..1] == [one] && [one][..0] == [];
    NamesMeanRanges(first, retry, node);
    assert AfterAttempts(map[], node, [one]) == map[NameOf(first, node) := first];
  }

  lemma EmissionOfThree(cfg: Config, hist: seq<Record>)
    requires |hist| == 3
    ensures Emission(cfg, hist, "s")
            == RecordEvents(cfg, hist[0], "s") + RecordEvents(cfg, hist[1], "s") + RecordEvents(cfg, hist[2], "s")
  {
    hide RecordEvents;
    assert hist[..2][..1] == hist[..1] && hist[..1][..0] == [];
    assert Emission(cfg, hist[..1], "s") == [] + RecordEvents(cfg, hist[0], "s");
    assert Emission(cfg, hist[..2], "s") == Emission(cfg, hist[..1], "s") + RecordEvents(cfg, hist[1], "s");
  }
}
