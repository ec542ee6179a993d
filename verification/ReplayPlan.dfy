/** Planning one record, and the effects a replay pass can have: src/wal/replay.rs, src/wal/error.rs. */
module ReplayPlan {
  import opened Bytes
  import opened Wrappers
  import opened FrameCodec
  import opened SegmentFile

  datatype Event = Event(json: seq<byte>)
  datatype Delivery = Delivery(target: string, event: Event)

  /** `ReplayIssue`, without its message texts. */
  datatype Issue =
    | WalIssue | EventPayload | ProjectIssue(controlPlaneUnavailable: bool) | ProcessorIssue
    | DeliveryPlan(target: Option<string>) | SinkIssue(sink: string, lsn: nat) | RuntimeIssue
  {
    /** `ReplayIssue::action`. */
    function Action(): ReplayAction {
      match this
      case WalIssue => StopReplay
      case RuntimeIssue => StopReplay
      case EventPayload => QuarantineRecord
      case ProcessorIssue => QuarantineRecord
      case DeliveryPlan(_) => QuarantineRecord
      case ProjectIssue(unavailable) => if unavailable then StopReplay else QuarantineRecord
      case SinkIssue(_, _) => BlockSink
    }
  }

  datatype ReplayAction = StopReplay | QuarantineRecord | BlockSink

  datatype BatchPolicy = BatchPolicy(maxEvents: nat, maxBytes: nat, timeout: nat)

  /** The settings of one pass and the collaborators it calls; the policy builders clamp with `AtLeastOne`. */
  datatype Config = Config(
    process: Record -> Result<seq<Delivery>, Issue>,   // JSON parse, project check, Rhai processor
    sinkNames: seq<string>,                            // EventRouter::sink_names: sorted
    batch: string -> BatchPolicy,                      // sink override, else global default
    flushRecords: nat, flushBytes: nat, flushInterval: nat,
    maxRecords: nat, maxBytes: nat,
    hasRuntimeState: bool)

  function AtLeastOne(n: nat): (m: nat)
    ensures m >= 1
  {
    if n == 0 then 1 else n
  }

  /** `sink_batch_policy`. */
  function PolicyOf(cfg: Config, sink: string): (p: BatchPolicy)
    ensures p.maxEvents >= 1 && p.maxBytes >= 1
  {
    var p := cfg.batch(sink);
    BatchPolicy(AtLeastOne(p.maxEvents), AtLeastOne(p.maxBytes), p.timeout)
  }

  /** The characters that `str::trim` strips: those with the Unicode property White_Space. */
  predicate WhiteSpace(c: char) {
    var n := c as int;
    || 0x9 <= n <= 0xD || n == 0x20 || n == 0x85 || n == 0xA0 || n == 0x1680
    || 0x2000 <= n <= 0x200A || n == 0x2028 || n == 0x2029 || n == 0x202F || n == 0x205F || n == 0x3000
  }

  /** `target.trim().is_empty()`. */
  predicate Blank(target: string) {
    forall i :: 0 <= i < |target| ==> WhiteSpace(target[i])
  }

  /** The first delivery that names no registered sink, if there is one. */
  function TargetIssue(cfg: Config, deliveries: seq<Delivery>): Option<Issue> {
    if deliveries == [] then None
    else if Blank(deliveries[0].target) then Some(DeliveryPlan(None))
    else if deliveries[0].target !in cfg.sinkNames then Some(DeliveryPlan(Some(deliveries[0].target)))
    else TargetIssue(cfg, deliveries[1..])
  }

  /** Delivery i is the first that names no registered sink. */
  ghost predicate FirstBad(cfg: Config, deliveries: seq<Delivery>, i: int) {
    && 0 <= i < |deliveries| && (Blank(deliveries[i].target) || deliveries[i].target !in cfg.sinkNames)
    && forall j :: 0 <= j < i ==> !Blank(deliveries[j].target) && deliveries[j].target in cfg.sinkNames
  }

  lemma {:induction false} TargetIssueIsFirstBad(cfg: Config, deliveries: seq<Delivery>) returns (i: int)
    ensures TargetIssue(cfg, deliveries).None? <==>
              forall j :: 0 <= j < |deliveries| ==>
                !Blank(deliveries[j].target) && deliveries[j].target in cfg.sinkNames
    ensures TargetIssue(cfg, deliveries).Some? ==>
              && FirstBad(cfg, deliveries, i)
              && TargetIssue(cfg, deliveries).value
                 == DeliveryPlan(if Blank(deliveries[i].target) then None else Some(deliveries[i].target))
  {
    hide Blank;
    i := 0;
    if deliveries != [] && !Blank(deliveries[0].target) && deliveries[0].target in cfg.sinkNames {
      var rest := deliveries[1..];
      assert forall j :: 0 < j < |deliveries| ==> deliveries[j] == rest[j - 1];
      var k := TargetIssueIsFirstBad(cfg, rest);
      i := k + 1;
      assert forall j :: 0 <= j < |rest| ==> rest[j] == deliveries[j + 1];
    }
  }

  /** The deliveries of a record, or the reason it has none. */
  function Plan(cfg: Config, r: Record): Result<seq<Delivery>, Issue> {
    var deliveries :- cfg.process(r);
    var issue := TargetIssue(cfg, deliveries);
    if issue.Some? then Failure(issue.value) else Success(deliveries)
  }

  /** The events a delivery list holds for one sink, in emission order. */
  function EventsFor(deliveries: seq<Delivery>, sink: string): seq<Event> {
    if deliveries == [] then []
    else
      EventsFor(deliveries[..|deliveries| - 1], sink)
      + if deliveries[|deliveries| - 1].target == sink then [deliveries[|deliveries| - 1].event] else []
  }

  /** These are the events of the deliveries to the sink, in order; event k is that of delivery at[k]. */
  ghost predicate Picks(deliveries: seq<Delivery>, sink: string, events: seq<Event>, at: seq<nat>) {
    && |at| == |events|
    && (forall j, k :: 0 <= j < k < |at| ==> at[j] < at[k])
    && (forall k :: 0 <= k < |at| ==>
          at[k] < |deliveries| && deliveries[at[k]] == Delivery(sink, events[k]))
    && (forall i :: 0 <= i < |deliveries| && deliveries[i].target == sink ==> i in at)
  }

  lemma {:induction false} EventsForPicks(deliveries: seq<Delivery>, sink: string) returns (at: seq<nat>)
    ensures Picks(deliveries, sink, EventsFor(deliveries, sink), at)
    decreases |deliveries|
  {
    hide Picks;
    if deliveries == [] {
      at := [];
      NothingPicked(sink);
    } else {
      var n := |deliveries| - 1;
      at := EventsForPicks(deliveries[..n], sink);
      var events := EventsFor(deliveries[..n], sink);
      if deliveries[n].target == sink {
        OneMorePicked(deliveries, sink, events, at);
        at := at + [n];
      } else {
        NotPicked(deliveries, sink, events, at);
        assert events + [] == events;
      }
    }
  }

  lemma NothingPicked(sink: string)
    ensures Picks([], sink, [], [])
  {
  }

  lemma OneMorePicked(deliveries: seq<Delivery>, sink: string, events: seq<Event>, at: seq<nat>)
    requires deliveries != [] && deliveries[|deliveries| - 1].target == sink
    requires Picks(deliveries[..|deliveries| - 1], sink, events, at)
    ensures Picks(deliveries, sink, events + [deliveries[|deliveries| - 1].event], at + [|deliveries| - 1])
  {
    var n := |deliveries| - 1;
    var out := at + [n];
    assert forall i :: 0 <= i < n ==> deliveries[..n][i] == deliveries[i];
    forall i | 0 <= i < |deliveries| && deliveries[i].target == sink ensures i in out {
      if i < n { assert i in at; } else { assert out[|at|] == n; }
    }
  }

  lemma NotPicked(deliveries: seq<Delivery>, sink: string, events: seq<Event>, at: seq<nat>)
    requires deliveries != [] && deliveries[|deliveries| - 1].target != sink
    requires Picks(deliveries[..|deliveries| - 1], sink, events, at)
    ensures Picks(deliveries, sink, events, at)
  {
    var n := |deliveries| - 1;
    assert forall i :: 0 <= i < n ==> deliveries[..n][i] == deliveries[i];
  }

  /** A list is its sink's events in order; an error is that of the first delivery that names no registered sink. */
  ghost predicate Grouped(cfg: Config, deliveries: seq<Delivery>, res: Result<map<string, seq<Event>>, Issue>) {
    match res
    case Success(groups) =>
      && (forall i :: 0 <= i < |deliveries| ==> !Blank(deliveries[i].target) && deliveries[i].target in cfg.sinkNames)
      && forall s :: s in groups ==> exists at :: Picks(deliveries, s, groups[s], at)
    case Failure(issue) =>
      exists i :: FirstBad(cfg, deliveries, i)
                  && issue == DeliveryPlan(if Blank(deliveries[i].target) then None else Some(deliveries[i].target))
  }

  lemma GroupedIsRight(cfg: Config, deliveries: seq<Delivery>)
    ensures TargetIssue(cfg, deliveries).Some? ==>
              Grouped(cfg, deliveries, Failure(TargetIssue(cfg, deliveries).value))
    ensures TargetIssue(cfg, deliveries).None? ==>
              forall groups | (forall s :: s in groups ==> groups[s] == EventsFor(deliveries, s)) ::
                Grouped(cfg, deliveries, Success(groups))
  {
    hide Blank, Picks, FirstBad, EventsFor, TargetIssue;
    var i := TargetIssueIsFirstBad(cfg, deliveries);
    forall s ensures exists at :: Picks(deliveries, s, EventsFor(deliveries, s), at) {
      var at := EventsForPicks(deliveries, s);
    }
  }

  lemma OneMoreDelivery(deliveries: seq<Delivery>, n: nat)
    requires n < |deliveries|
    ensures forall s :: EventsFor(deliveries[..n + 1], s)
              == EventsFor(deliveries[..n], s) + if deliveries[n].target == s then [deliveries[n].event] else []
  {
    assert deliveries[..n + 1][..n] == deliveries[..n];
  }

  /** `group_deliveries_by_sink`. */
  method GroupDeliveriesBySink(cfg: Config, deliveries: seq<Delivery>)
    returns (res: Result<map<string, seq<Event>>, Issue>)
    ensures TargetIssue(cfg, deliveries).Some? ==>
              res == Failure(TargetIssue(cfg, deliveries).value) && res.error.Action() == QuarantineRecord
    ensures TargetIssue(cfg, deliveries).None? ==>
              && res.Success?
              && (forall s :: s in res.value <==> exists i :: 0 <= i < |deliveries| && deliveries[i].target == s)
              && (forall s :: s in res.value ==> s in cfg.sinkNames)
              && (forall s :: EventsFor(deliveries, s) == if s in res.value then res.value[s] else [])
    ensures Grouped(cfg, deliveries, res)
  {
    hide EventsFor, Blank, Grouped, GroupedSoFar;
    GroupedIsRight(cfg, deliveries);
    var groups: map<string, seq<Event>> := map[];
    NothingGrouped(deliveries);
    assert deliveries[0..] == deliveries;
    for n := 0 to |deliveries|
      invariant TargetIssue(cfg, deliveries) == TargetIssue(cfg, deliveries[n..])
      invariant GroupedSoFar(deliveries, n, groups)
      invariant forall s :: s in groups ==> s in cfg.sinkNames
    {
      var delivery := deliveries[n];
      assert deliveries[n..][0] == delivery && deliveries[n..][1..] == deliveries[n + 1..];
      if Blank(delivery.target) { return Failure(DeliveryPlan(None)); }
      if delivery.target !in cfg.sinkNames { return Failure(DeliveryPlan(Some(delivery.target))); }
      OneMoreGrouped(deliveries, n, groups);
      var events := if delivery.target in groups then groups[delivery.target] else [];
      groups := groups[delivery.target := events + [delivery.event]];
    }
    AllGrouped(deliveries, groups);
    return Success(groups);
  }

  /** The groups of the first n deliveries. */
  ghost predicate GroupedSoFar(deliveries: seq<Delivery>, n: nat, groups: map<string, seq<Event>>)
    requires n <= |deliveries|
  {
    && (forall s :: s in groups <==> exists i :: 0 <= i < n && deliveries[i].target == s)
    && (forall s :: EventsFor(deliveries[..n], s) == if s in groups then groups[s] else [])
  }

  lemma NothingGrouped(deliveries: seq<Delivery>)
    ensures GroupedSoFar(deliveries, 0, map[])
  {
    assert deliveries[..0] == [];
  }

  lemma OneMoreGrouped(deliveries: seq<Delivery>, n: nat, groups: map<string, seq<Event>>)
    requires n < |deliveries| && GroupedSoFar(deliveries, n, groups)
    ensures var d := deliveries[n];
            GroupedSoFar(deliveries, n + 1,
                         groups[d.target := (if d.target in groups then groups[d.target] else []) + [d.event]])
  {
    hide EventsFor;
    var d := deliveries[n];
    var out := groups[d.target := (if d.target in groups then groups[d.target] else []) + [d.event]];
    OneMoreDelivery(deliveries, n);
    forall s ensures s in out <==> exists i :: 0 <= i < n + 1 && deliveries[i].target == s {
      if s == d.target { assert deliveries[n].target == s; }
    }
    forall s ensures EventsFor(deliveries[..n + 1], s) == if s in out then out[s] else [] {
      assert EventsFor(deliveries[..n], s) + [] == EventsFor(deliveries[..n], s);
    }
  }

  lemma AllGrouped(deliveries: seq<Delivery>, groups: map<string, seq<Event>>)
    requires GroupedSoFar(deliveries, |deliveries|, groups)
    ensures forall s :: s in groups <==> exists i :: 0 <= i < |deliveries| && deliveries[i].target == s
    ensures forall s :: EventsFor(deliveries, s) == if s in groups then groups[s] else []
  {
    hide EventsFor;
    assert deliveries[..|deliveries|] == deliveries;
  }

  // ---- effects ------------------------------------------------------------------------------

  /** How a call into the outside world ends; `DoneThenFailed` did its work but still reports an error. */
  datatype Outcome = Done | Refused | DoneThenFailed

  datatype SinkEvent = SinkEvent(nodeId: seq<byte>, lsn: nat, event: Event)
  datatype Metadata = Metadata(nodeId: seq<byte>, lsnStart: nat, lsnEnd: nat)

  datatype Effect =
    | Send(sink: string, events: seq<SinkEvent>, metadata: Metadata, outcome: Outcome)
    | Quarantine(lsn: nat)
    | WriteCheckpoint(position: Position, outcome: Outcome)
    | Cleanup(upTo: nat, keepFrom: nat, outcome: Outcome)

  type Trace = seq<Effect>

  /** What the outside world answers: the k-th effect of a pass, the k-th look at the clock. */
  datatype World = World(outcome: nat -> Outcome, clock: nat -> nat)

  /** Events a sink has taken, in order. */
  function Accepted(trace: Trace, sink: string): seq<SinkEvent> {
    if trace == [] then []
    else
      Accepted(trace[..|trace| - 1], sink)
      + match trace[|trace| - 1]
        case Send(name, events, _, outcome) => if name == sink && outcome != Refused then events else []
        case _ => []
  }

  function Quarantined(trace: Trace): seq<nat> {
    if trace == [] then []
    else
      Quarantined(trace[..|trace| - 1])
      + match trace[|trace| - 1]
        case Quarantine(lsn) => [lsn]
        case _ => []
  }

  /** The checkpoint in force after a trace that started from `start`. */
  function LastWrite(trace: Trace, start: Option<Position>): Option<Position> {
    if trace == [] then start
    else
      match trace[|trace| - 1]
      case WriteCheckpoint(p, outcome) =>
        if outcome != Refused then Some(p) else LastWrite(trace[..|trace| - 1], start)
      case _ => LastWrite(trace[..|trace| - 1], start)
  }

  lemma OneMoreEffect(trace: Trace, e: Effect, sink: string, start: Option<Position>)
    ensures Accepted(trace + [e], sink)
            == Accepted(trace, sink) + if e.Send? && e.sink == sink && e.outcome != Refused then e.events else []
    ensures Quarantined(trace + [e]) == Quarantined(trace) + if e.Quarantine? then [e.lsn] else []
    ensures LastWrite(trace + [e], start)
            == if e.WriteCheckpoint? && e.outcome != Refused then Some(e.position) else LastWrite(trace, start)
  {
    assert (trace + [e])[..|trace|] == trace;
  }

  lemma NoEffects(sink: string)
    ensures Accepted([], sink) == [] && Quarantined([]) == []
  {
  }

  lemma {:induction false} AcceptedConcat(a: Trace, b: Trace, sink: string)
    ensures Accepted(a + b, sink) == Accepted(a, sink) + Accepted(b, sink)
    ensures Quarantined(a + b) == Quarantined(a) + Quarantined(b)
  {
    hide Accepted, Quarantined, LastWrite;
    if b == [] {
      assert a + b == a && Accepted([], sink) == [] && Quarantined([]) == [] by { NoEffects(sink); }
    } else {
      var front, e := b[..|b| - 1], b[|b| - 1];
      AcceptedConcat(a, front, sink);
      assert a + b == (a + front) + [e] && b == front + [e];
      OneMoreEffect(a + front, e, sink, None);
      OneMoreEffect(front, e, sink, None);
      Assoc(Accepted(a, sink), Accepted(front, sink),
            if e.Send? && e.sink == sink && e.outcome != Refused then e.events else []);
      Assoc(Quarantined(a), Quarantined(front), if e.Quarantine? then [e.lsn] else []);
    }
  }
}
