/** Splitting a sink's events into batches, sending them, and deferring small ones: src/wal/replay.rs. */
module SinkBatching {
  import opened Bytes
  import opened Wrappers
  import opened SegmentFile
  import opened ReplayPlan

  type Batch = seq<SinkEvent>

  /** `u64::saturating_add`. */
  function SatAdd(a: nat, b: nat): (s: nat)
    ensures s <= a + b && (a + b < U64_LIMIT ==> s == a + b)
  {
    if a + b < U64_LIMIT then a + b else U64_LIMIT - 1
  }

  /** `sink_delivery_events_bytes`. */
  function BytesOf(events: seq<SinkEvent>): nat {
    if events == [] then 0
    else SatAdd(BytesOf(events[..|events| - 1]), |events[|events| - 1].event.json|)
  }

  /** Does the open batch have to go out before this event can join? */
  predicate Closes(p: BatchPolicy, batch: Batch, e: SinkEvent) {
    |batch| >= p.maxEvents || (batch != [] && SatAdd(BytesOf(batch), |e.event.json|) > p.maxBytes)
  }

  /** The batches that come of the open batch and the events still to place. */
  function BatchesFrom(p: BatchPolicy, batch: Batch, events: seq<SinkEvent>): seq<Batch>
    decreases |events|
  {
    if events == [] then (if batch == [] then [] else [batch])
    else if Closes(p, batch, events[0]) then [batch] + BatchesFrom(p, [events[0]], events[1..])
    else BatchesFrom(p, batch + [events[0]], events[1..])
  }

  function Batches(p: BatchPolicy, events: seq<SinkEvent>): seq<Batch> {
    BatchesFrom(p, [], events)
  }

  function Concat(batches: seq<Batch>): seq<SinkEvent> {
    if batches == [] then [] else batches[0] + Concat(batches[1..])
  }

  predicate Fits(p: BatchPolicy, batch: Batch) {
    batch != [] && |batch| <= p.maxEvents && (|batch| == 1 || BytesOf(batch) <= p.maxBytes)
  }

  lemma OneMoreByteCount(batch: Batch, e: SinkEvent)
    ensures BytesOf(batch + [e]) == SatAdd(BytesOf(batch), |e.event.json|)
  {
    assert (batch + [e])[..|batch|] == batch;
  }

  lemma StillFits(p: BatchPolicy, batch: Batch, e: SinkEvent)
    requires p.maxEvents >= 1 && (batch == [] || Fits(p, batch))
    ensures Fits(p, [e]) && (Closes(p, batch, e) ==> batch != []) && (!Closes(p, batch, e) ==> Fits(p, batch + [e]))
  {
    OneMoreByteCount([], e);
    OneMoreByteCount(batch, e);
  }

  /** Batching partitions the events in order, and every batch is within both limits unless it is a singleton. */
  lemma {:induction false} BatchesPartition(p: BatchPolicy, batch: Batch, events: seq<SinkEvent>)
    requires p.maxEvents >= 1 && (batch == [] || Fits(p, batch))
    ensures Concat(BatchesFrom(p, batch, events)) == batch + events
    ensures forall i :: 0 <= i < |BatchesFrom(p, batch, events)| ==> Fits(p, BatchesFrom(p, batch, events)[i])
    decreases |events|
  {
    if events == [] {
      assert batch + events == batch;
      assert Concat([batch]) == batch + Concat([]);
    } else {
      hide Closes, Fits;
      var e, rest := events[0], events[1..];
      assert events == [e] + rest;
      StillFits(p, batch, e);
      if Closes(p, batch, e) {
        var later := BatchesFrom(p, [e], rest);
        BatchesPartition(p, [e], rest);
        assert ([batch] + later)[1..] == later;
      } else {
        BatchesPartition(p, batch + [e], rest);
        assert batch + events == (batch + [e]) + rest;
      }
    }
  }

  lemma BatchesOfAll(p: BatchPolicy, events: seq<SinkEvent>)
    requires p.maxEvents >= 1
    ensures Concat(Batches(p, events)) == events
    ensures forall i :: 0 <= i < |Batches(p, events)| ==> Batches(p, events)[i] != []
  {
    BatchesPartition(p, [], events);
    assert [] + events == events;
  }

  lemma ClosesOnTooMuch(p: BatchPolicy, batch: Batch, e: SinkEvent)
    requires batch != [] && Closes(p, batch, e)
    ensures !Fits(p, batch + [e])
  {
    OneMoreByteCount(batch, e);
  }

  /** The payload bytes of some events. */
  function TotalBytes(events: seq<SinkEvent>): nat {
    if events == [] then 0 else |events[0].event.json| + TotalBytes(events[1..])
  }

  lemma {:induction false} TotalOfOneMore(events: seq<SinkEvent>, e: SinkEvent)
    ensures TotalBytes(events + [e]) == TotalBytes(events) + |e.event.json|
  {
    if events == [] {
      assert [] + [e] == [e] && [e][1..] == [];
    } else {
      assert (events + [e])[1..] == events[1..] + [e];
      TotalOfOneMore(events[1..], e);
    }
  }

  /** The byte count of a batch is its payload bytes, up to where a u64 saturates. */
  lemma {:induction false} BytesOfIsTotal(events: seq<SinkEvent>)
    ensures BytesOf(events) == if TotalBytes(events) < U64_LIMIT then TotalBytes(events) else U64_LIMIT - 1
    decreases |events|
  {
    if events != [] {
      var front, last := events[..|events| - 1], events[|events| - 1];
      assert events == front + [last];
      BytesOfIsTotal(front);
      TotalOfOneMore(front, last);
    }
  }

  /** No batch could have taken one more event: with the first event of the next batch it would be over a limit. */
  lemma {:induction false} BatchesAreMaximal(p: BatchPolicy, batch: Batch, events: seq<SinkEvent>, i: nat)
    requires p.maxEvents >= 1 && (batch == [] || Fits(p, batch))
    requires i + 1 < |BatchesFrom(p, batch, events)|
    ensures BatchesFrom(p, batch, events)[i + 1] != []
    ensures !Fits(p, BatchesFrom(p, batch, events)[i] + [BatchesFrom(p, batch, events)[i + 1][0]])
    decreases |events|
  {
    BatchesPartition(p, batch, events);
    assert Fits(p, BatchesFrom(p, batch, events)[i + 1]);
    if events != [] {
      hide Closes, Fits;
      var e, rest := events[0], events[1..];
      StillFits(p, batch, e);
      if Closes(p, batch, e) {
        if i == 0 {
          FirstBatchStarts(p, [e], rest);
          ClosesOnTooMuch(p, batch, e);
        } else {
          BatchesAreMaximal(p, [e], rest, i - 1);
        }
      } else {
        BatchesAreMaximal(p, batch + [e], rest, i);
      }
    }
  }

  lemma {:induction false} FirstBatchStarts(p: BatchPolicy, batch: Batch, events: seq<SinkEvent>)
    requires batch != []
    ensures BatchesFrom(p, batch, events) != []
    ensures batch <= BatchesFrom(p, batch, events)[0]
    decreases |events|
  {
    if events != [] && !Closes(p, batch, events[0]) {
      FirstBatchStarts(p, batch + [events[0]], events[1..]);
    }
  }

  function Before(batches: seq<Batch>, i: nat): nat
    requires i <= |batches|
  {
    |Concat(batches[..i])|
  }

  lemma {:induction false} ConcatSplits(batches: seq<Batch>, i: nat)
    requires i <= |batches|
    ensures Concat(batches) == Concat(batches[..i]) + Concat(batches[i..])
  {
    if i == 0 {
      assert batches[..0] == [] && batches[0..] == batches;
    } else {
      ConcatSplits(batches[1..], i - 1);
      assert batches[1..][..i - 1] == batches[..i][1..] && batches[1..][i - 1..] == batches[i..];
    }
  }

  /** Batch i is the run of events behind those of the batches before it. */
  lemma BatchIsRun(batches: seq<Batch>, i: nat)
    requires i < |batches|
    ensures Before(batches, i + 1) == Before(batches, i) + |batches[i]| <= |Concat(batches)|
    ensures batches[i] == Concat(batches)[Before(batches, i)..Before(batches, i + 1)]
  {
    ConcatSplits(batches, i);
    ConcatSplits(batches, i + 1);
    ConcatSplits(batches[..i + 1], i);
    assert batches[..i + 1][..i] == batches[..i] && batches[..i + 1][i..] == [batches[i]];
    assert Concat([batches[i]]) == batches[i] + Concat([]);
  }

  ghost predicate RunAt(all: seq<SinkEvent>, batch: Batch, from: int, to: int) {
    0 <= from < to <= |all| && batch == all[from..to]
  }

  /** A non-empty run of consecutive events. */
  ghost predicate IsRun(all: seq<SinkEvent>, batch: Batch) {
    exists from, to :: RunAt(all, batch, from, to)
  }

  lemma ElementOfRun(all: seq<SinkEvent>, batch: Batch, from: int, to: int)
    requires RunAt(all, batch, from, to)
    ensures |batch| == to - from && forall i :: 0 <= i < |batch| ==> batch[i] == all[from + i]
  {
  }

  lemma BatchOfRunIsRun(all: seq<SinkEvent>, events: seq<SinkEvent>, batches: seq<Batch>, i: nat)
    requires IsRun(all, events) && Concat(batches) == events && i < |batches| && batches[i] != []
    ensures IsRun(all, batches[i])
  {
    hide Concat, Before;
    BatchIsRun(batches, i);
    var from, to :| RunAt(all, events, from, to);
    var a, b := Before(batches, i), Before(batches, i + 1);
    SliceOfSlice(all, from, to, a, b);
    assert RunAt(all, batches[i], from + a, from + b);
  }

  lemma SliceOfSlice<T>(s: seq<T>, from: nat, to: nat, a: nat, b: nat)
    requires from <= to <= |s| && a <= b <= to - from
    ensures s[from..to][a..b] == s[from + a..from + b]
  {
    var inner := s[from..to];
    forall i | 0 <= i < b - a ensures inner[a..b][i] == s[from + a..from + b][i] {
      assert inner[a..b][i] == inner[a + i];
    }
  }

  lemma MiddleIsRun(all: seq<SinkEvent>, front: seq<SinkEvent>, middle: Batch)
    requires front + middle <= all && middle != []
    ensures IsRun(all, middle)
  {
    assert middle == (front + middle)[|front|..];
    assert RunAt(all, middle, |front|, |front| + |middle|);
  }

  // ---- order --------------------------------------------------------------------------------

  /** Events in log order. */
  ghost predicate InOrder(events: seq<SinkEvent>) {
    forall i, j :: 0 <= i < j < |events| ==> events[i].lsn <= events[j].lsn
  }

  /** Every record emitted at most one of these events. */
  ghost predicate OnePerRecord(events: seq<SinkEvent>) {
    forall i, j :: 0 <= i < j < |events| ==> events[i].lsn < events[j].lsn
  }

  ghost predicate OfNode(events: seq<SinkEvent>, node: seq<byte>) {
    forall i :: 0 <= i < |events| ==> events[i].nodeId == node
  }

  lemma RunOfMiddle(front: seq<SinkEvent>, middle: seq<SinkEvent>, back: seq<SinkEvent>, batch: Batch)
    requires IsRun(middle, batch)
    ensures IsRun(front + middle + back, batch)
  {
    var from, to :| RunAt(middle, batch, from, to);
    var all := front + middle + back;
    assert all[|front| + from..|front| + to] == batch;
    assert RunAt(all, batch, |front| + from, |front| + to);
  }

  lemma RunKeepsOrder(all: seq<SinkEvent>, batch: Batch)
    requires IsRun(all, batch)
    ensures batch != []
    ensures InOrder(all) ==> InOrder(batch)
    ensures OnePerRecord(all) ==> OnePerRecord(batch)
    ensures forall node :: OfNode(all, node) ==> OfNode(batch, node)
  {
    var from, to :| RunAt(all, batch, from, to);
    ElementOfRun(all, batch, from, to);
  }

  lemma NoEvents()
    ensures InOrder([]) && OnePerRecord([]) && forall node :: OfNode([], node)
  {
  }

  /** Events of the next record behind events of earlier ones. */
  lemma NextRecord(events: seq<SinkEvent>, more: seq<SinkEvent>, lsn: nat)
    requires forall i :: 0 <= i < |events| ==> events[i].lsn < lsn
    requires forall i :: 0 <= i < |more| ==> more[i].lsn == lsn
    ensures forall i :: 0 <= i < |events + more| ==> (events + more)[i].lsn <= lsn
    ensures InOrder(events) ==> InOrder(events + more)
    ensures OnePerRecord(events) && |more| <= 1 ==> OnePerRecord(events + more)
    ensures forall node :: OfNode(events, node) && OfNode(more, node) ==> OfNode(events + more, node)
  {
  }

  // ---- sending ------------------------------------------------------------------------------

  /** The source takes the node id of the last batch from the first event of all. */
  function MetadataOf(batch: Batch, nodeId: seq<byte>): Metadata
    requires batch != []
  {
    Metadata(nodeId, batch[0].lsn, batch[|batch| - 1].lsn)
  }

  /** `send_sink_events_in_batches` on ready batches: the trace, and the first LSN of the batch that failed. */
  function SendAll(w: World, sink: string, batches: seq<Batch>, nodeId: seq<byte>, trace: Trace): (Trace, Option<nat>) {
    if batches == [] then (trace, None)
    else if batches[0] == [] then (trace, None)
    else
      var b, outcome := batches[0], w.outcome(|trace|);
      var sent := trace + [Send(sink, b, MetadataOf(b, if |batches| == 1 then nodeId else b[0].nodeId), outcome)];
      if outcome == Done then SendAll(w, sink, batches[1..], nodeId, sent) else (sent, Some(b[0].lsn))
  }

  function SendEvents(w: World, cfg: Config, sink: string, events: seq<SinkEvent>, trace: Trace): (Trace, Option<nat>) {
    if events == [] then (trace, None)
    else SendAll(w, sink, Batches(PolicyOf(cfg, sink), events), events[0].nodeId, trace)
  }

  predicate IsSend(e: Effect, sink: string, batch: Batch, outcome: Outcome) {
    e.Send? && e.sink == sink && e.events == batch && e.outcome == outcome
  }

  /** From effect n on, the trace holds completed sends of the first k batches. */
  ghost predicate Delivered(trace: Trace, n: nat, sink: string, batches: seq<Batch>, k: int) {
    && 0 <= k <= |batches| && n + k <= |trace|
    && forall i :: 0 <= i < k ==> IsSend(trace[n + i], sink, batches[i], Done)
  }

  /** Batch k failed: the batches before it are through, it is the last effect, and its first LSN is reported. */
  ghost predicate FailedAt(w: World, out: Trace, n: nat, sink: string, batches: seq<Batch>, k: int, lsn: nat) {
    && Delivered(out, n, sink, batches, k) && k < |batches| && |out| == n + k + 1
    && IsSend(out[n + k], sink, batches[k], w.outcome(n + k)) && w.outcome(n + k) != Done
    && batches[k] != [] && lsn == batches[k][0].lsn
  }

  /** Failure at batch k means exactly the earlier batches were accepted, and the LSN reported is batch k's first. */
  lemma {:induction false} SendAllStopsAtFailure(w: World, sink: string, batches: seq<Batch>, nodeId: seq<byte>,
                                                 trace: Trace)
    requires forall i :: 0 <= i < |batches| ==> batches[i] != []
    ensures var (out, failed) := SendAll(w, sink, batches, nodeId, trace);
            && trace <= out
            && (failed.None? ==> Delivered(out, |trace|, sink, batches, |batches|) && |out| == |trace| + |batches|)
            && (failed.Some? ==> exists k :: FailedAt(w, out, |trace|, sink, batches, k, failed.value))
    decreases |batches|
  {
    hide MetadataOf;
    var (out, failed) := SendAll(w, sink, batches, nodeId, trace);
    var n := |trace|;
    if batches != [] {
      var b, outcome := batches[0], w.outcome(n);
      var sent := trace + [Send(sink, b, MetadataOf(b, if |batches| == 1 then nodeId else b[0].nodeId), outcome)];
      if outcome == Done {
        var rest := batches[1..];
        SendAllStopsAtFailure(w, sink, rest, nodeId, sent);
        assert out[n] == sent[n];
        if failed.Some? {
          var k :| FailedAt(w, out, n + 1, sink, rest, k, failed.value);
          DeliveredOneBefore(out, n, sink, batches, k + 1);
          assert FailedAt(w, out, n, sink, batches, k + 1, failed.value);
        } else {
          DeliveredOneBefore(out, n, sink, batches, |batches|);
        }
      } else {
        assert FailedAt(w, out, n, sink, batches, 0, failed.value);
      }
    }
  }

  lemma DeliveredOneBefore(trace: Trace, n: nat, sink: string, batches: seq<Batch>, k: nat)
    requires 0 < k <= |batches| && n < |trace| && IsSend(trace[n], sink, batches[0], Done)
    requires Delivered(trace, n + 1, sink, batches[1..], k - 1)
    ensures Delivered(trace, n, sink, batches, k)
  {
    forall i | 0 <= i < k ensures IsSend(trace[n + i], sink, batches[i], Done) {
      if i > 0 {
        assert IsSend(trace[n + 1 + (i - 1)], sink, batches[1..][i - 1], Done);
      }
    }
  }

  /** What a send run adds to each sink: everything if it ends well, a run of whole batches otherwise. */
  lemma {:induction false} SendAllAccepts(w: World, sink: string, batches: seq<Batch>, nodeId: seq<byte>, trace: Trace,
                                          s: string)
    requires forall i :: 0 <= i < |batches| ==> batches[i] != []
    ensures var (out, failed) := SendAll(w, sink, batches, nodeId, trace);
            && (s != sink ==> Accepted(out, s) == Accepted(trace, s))
            && (failed.None? ==> Accepted(out, sink) == Accepted(trace, sink) + Concat(batches))
            && (failed.Some? ==>
                  exists k :: 0 <= k <= |batches|
                              && Accepted(out, sink) == Accepted(trace, sink) + Concat(batches[..k]))
            && Quarantined(out) == Quarantined(trace)
            && forall start :: LastWrite(out, start) == LastWrite(trace, start)
    decreases |batches|
  {
    hide Accepted, Quarantined, LastWrite;
    var (out, failed) := SendAll(w, sink, batches, nodeId, trace);
    if batches == [] {
      assert Accepted(trace, sink) + [] == Accepted(trace, sink);
    } else {
      var b, outcome := batches[0], w.outcome(|trace|);
      var e := Send(sink, b, MetadataOf(b, if |batches| == 1 then nodeId else b[0].nodeId), outcome);
      var sent, rest := trace + [e], batches[1..];
      forall start ensures LastWrite(sent, start) == LastWrite(trace, start) { OneMoreEffect(trace, e, s, start); }
      OneMoreEffect(trace, e, sink, None);
      OneMoreEffect(trace, e, s, None);
      if outcome == Done {
        SendAllAccepts(w, sink, rest, nodeId, sent, s);
        Assoc(Accepted(trace, sink), b, Concat(rest));
        if failed.Some? {
          var k :| 0 <= k <= |rest| && Accepted(out, sink) == Accepted(sent, sink) + Concat(rest[..k]);
          assert batches[..k + 1][1..] == rest[..k] && batches[..k + 1][0] == b;
          Assoc(Accepted(trace, sink), b, Concat(rest[..k]));
          assert Accepted(out, sink) == Accepted(trace, sink) + Concat(batches[..k + 1]);
        }
      } else {
        assert Concat([b]) == b + Concat([]);
        var k := if outcome == Refused then 0 else 1;
        assert batches[..0] == [] && batches[..1] == [b];
        assert Accepted(trace, sink) + [] == Accepted(trace, sink);
        assert Accepted(out, sink) == Accepted(trace, sink) + Concat(batches[..k]);
      }
    }
  }
}
