/** What the sends of whole runs are: runs of the events that the durable records emit, of one node, in log order. */
module PipelineSends {
  import opened Bytes
  import opened FrameCodec
  import opened SegmentFile
  import opened SegmentLog
  import opened WalSpec
  import opened LogInvariant
  import opened ReplayPlan
  import opened SinkBatching
  import opened Replay
  import opened ReplayExact
  import opened Pipeline
  import opened PipelineReplay
  import opened PipelineTheorems

  // ---- one node -------------------------------------------------------------------------------

  ghost predicate OfNodeAll(recs: seq<Record>, node: seq<byte>) {
    forall i :: 0 <= i < |recs| ==> recs[i].nodeId == node
  }

  /** Every record, durable or buffered, carries this node's id. */
  ghost predicate NodesOk(e: Setup, s: System) {
    OfNodeAll(s.hist, e.nodeId) && (s.memory.Up? ==> OfNodeAll(s.memory.buffered, e.nodeId))
  }

  lemma NextKeepsNodes(e: Setup, s: System, op: Op)
    requires NodesOk(e, s)
    ensures NodesOk(e, Next(e, s, op))
  {
    hide AppendAll, Placed, CrashLayout, Restart, AllEncodable, TornFrom, ReadCheckpoint, EntriesAfter, Pass,
         CoveredIds, Without, Between, ActiveId, NextLsn, FileLen;
  }

  // ---- the emission of the history ------------------------------------------------------------

  /** What the records emit for a sink, one after the other. */
  function Emission(cfg: Config, recs: seq<Record>, sink: string): seq<SinkEvent> {
    if recs == [] then [] else Emission(cfg, recs[..|recs| - 1], sink) + RecordEvents(cfg, recs[|recs| - 1], sink)
  }

  lemma {:induction false} EmissionConcat(cfg: Config, a: seq<Record>, b: seq<Record>, sink: string)
    ensures Emission(cfg, a + b, sink) == Emission(cfg, a, sink) + Emission(cfg, b, sink)
    decreases |b|
  {
    hide RecordEvents;
    if b == [] {
      assert a + b == a;
      assert Emission(cfg, a, sink) + [] == Emission(cfg, a, sink);
    } else {
      var front, r := b[..|b| - 1], b[|b| - 1];
      EmissionConcat(cfg, a, front, sink);
      assert (a + b)[..|a + b| - 1] == a + front;
      Assoc(Emission(cfg, a, sink), Emission(cfg, front, sink), RecordEvents(cfg, r, sink));
    }
  }

  /** The entries carry these records. */
  ghost predicate Carry(entries: seq<Entry>, recs: seq<Record>) {
    |entries| == |recs|
    && forall n :: 0 <= n < |entries| ==> entries[n].record == recs[n] && entries[n].position.lsn == recs[n].lsn
  }

  lemma {:induction false} EmittedIsEmission(cfg: Config, entries: seq<Entry>, recs: seq<Record>, sink: string)
    requires Carry(entries, recs)
    ensures Emitted(cfg, entries, sink) == Emission(cfg, recs, sink)
    decreases |entries|
  {
    if entries != [] {
      var n := |entries| - 1;
      EmittedIsEmission(cfg, entries[..n], recs[..n], sink);
      SameEvents(cfg, entries[n], sink);
      hide EntryEvents, RecordEvents;
    }
  }

  lemma SameEvents(cfg: Config, e: Entry, sink: string)
    requires e.position.lsn == e.record.lsn
    ensures EntryEvents(cfg, e, sink) == RecordEvents(cfg, e.record, sink)
  {
    hide Plan, EventsFor;
  }

  /** The emission of a numbered history of one node is in log order and of that node. */
  lemma {:induction false} EmissionOrder(cfg: Config, hist: seq<Record>, node: seq<byte>, sink: string)
    requires Numbered(hist) && OfNodeAll(hist, node)
    ensures var all := Emission(cfg, hist, sink);
            && InOrder(all) && OfNode(all, node) && (forall i :: 0 <= i < |all| ==> all[i].lsn <= |hist|)
            && ((forall i :: 0 <= i < |hist| ==> |RecordEvents(cfg, hist[i], sink)| <= 1) ==> OnePerRecord(all))
    decreases |hist|
  {
    hide RecordEvents, InOrder, OnePerRecord;
    NoEvents();
    if hist != [] {
      var n := |hist| - 1;
      EmissionOrder(cfg, hist[..n], node, sink);
      EventsOfRecord(cfg, hist[n], sink);
      NextRecord(Emission(cfg, hist[..n], sink), RecordEvents(cfg, hist[n], sink), n + 1);
      assert forall i :: 0 <= i < n ==> hist[..n][i] == hist[i];
    }
  }

  lemma EventsOfRecord(cfg: Config, r: Record, sink: string)
    ensures forall i :: 0 <= i < |RecordEvents(cfg, r, sink)| ==>
              RecordEvents(cfg, r, sink)[i].lsn == r.lsn && RecordEvents(cfg, r, sink)[i].nodeId == r.nodeId
  {
    hide Plan, EventsFor;
  }

  // ---- the sends of a run ---------------------------------------------------------------------

  /** A send under this configuration: a run of what the history emits, with its own node id and LSN range. */
  ghost predicate SendOk(cfg: Config, hist: seq<Record>, node: seq<byte>, eff: Effect)
    requires eff.Send?
  {
    IsRun(Emission(cfg, hist, eff.sink), eff.events) && eff.events != [] && eff.metadata == MetadataOf(eff.events, node)
  }

  /** Every send so far is a send of the pass behind it. */
  ghost predicate SendsOk(e: Setup, s: System) {
    && |s.origin| == |s.log|
    && forall i :: 0 <= i < |s.log| && s.log[i].Send? ==> SendOk(s.origin[i], s.hist, e.nodeId, s.log[i])
  }

  lemma SendStaysOk(cfg: Config, hist: seq<Record>, more: seq<Record>, node: seq<byte>, eff: Effect)
    requires eff.Send? && SendOk(cfg, hist, node, eff)
    ensures SendOk(cfg, hist + more, node, eff)
  {
    hide IsRun, Emission;
    EmissionConcat(cfg, hist, more, eff.sink);
    RunOfMiddle([], Emission(cfg, hist, eff.sink), Emission(cfg, more, eff.sink), eff.events);
    assert [] + Emission(cfg, hist, eff.sink) == Emission(cfg, hist, eff.sink);
  }

  lemma HistoryKeepsSends(e: Setup, s: System, s1: System)
    requires SendsOk(e, s) && s.hist <= s1.hist && s1.log == s.log && s1.origin == s.origin
    ensures SendsOk(e, s1)
  {
    hide SendOk;
    forall i | 0 <= i < |s1.log| && s1.log[i].Send? ensures SendOk(s1.origin[i], s1.hist, e.nodeId, s1.log[i]) {
      SendStaysOk(s.origin[i], s.hist, s1.hist[|s.hist|..], e.nodeId, s.log[i]);
      assert s.hist + s1.hist[|s.hist|..] == s1.hist;
    }
  }

  /** A sound send of a pass is a run of the emission of the whole history. */
  lemma SoundSendIsOk(e: Setup, s: System, run: PassRun)
    requires PassOk(e, s, run) && OfNodeAll(s.hist, e.nodeId) && Numbered(s.hist) && run.todo != [] && run.todo[0].Send?
    ensures SendOk(run.cfg, s.hist, e.nodeId, run.todo[0])
  {
    hide PassOk, Emitted, SendsRun, Carry, OfNodeAll, Numbered, SendOk;
    NextEffectSound(e, s, run);
    CarryHistory(e, s, run);
    PartIsOk(run.cfg, s.hist, e.nodeId, run.base, run.entries, run.todo[0]);
  }

  lemma PartIsOk(cfg: Config, hist: seq<Record>, node: seq<byte>, base: nat, entries: seq<Entry>, eff: Effect)
    requires OfNodeAll(hist, node) && base + |entries| <= |hist| && Carry(entries, hist[base..base + |entries|])
    requires eff.Send? && SendsRun(Emitted(cfg, entries, eff.sink), eff.events, eff.metadata)
    ensures SendOk(cfg, hist, node, eff)
  {
    hide Emitted, Emission, IsRun, SendsRun, OfNode, OfNodeAll, Carry;
    var n := |entries|;
    var before, mine, after := hist[..base], hist[base..base + n], hist[base + n..];
    assert hist == before + mine + after;
    EmittedIsEmission(cfg, entries, mine, eff.sink);
    EmissionConcat(cfg, before, mine, eff.sink);
    EmissionConcat(cfg, before + mine, after, eff.sink);
    NodeOfPart(hist, node, cfg, base, n, eff.sink);
    SendsOfOneNode(Emission(cfg, mine, eff.sink), eff.events, eff.metadata, node);
    RunOfMiddle(Emission(cfg, before, eff.sink), Emission(cfg, mine, eff.sink), Emission(cfg, after, eff.sink),
                eff.events);
  }

  lemma CarryHistory(e: Setup, s: System, run: PassRun)
    requires PassOk(e, s, run) && Numbered(s.hist)
    ensures run.base + |run.entries| <= |s.hist|
    ensures Carry(run.entries, s.hist[run.base..run.base + |run.entries|])
  {
    hide At, AllSound, LastWrite;
  }

  lemma {:induction false} NodeOfPart(hist: seq<Record>, node: seq<byte>, cfg: Config, base: nat, n: nat, sink: string)
    requires OfNodeAll(hist, node) && base + n <= |hist|
    ensures OfNode(Emission(cfg, hist[base..base + n], sink), node)
    decreases n
  {
    hide RecordEvents;
    if n > 0 {
      NodeOfPart(hist, node, cfg, base, n - 1, sink);
      var part := hist[base..base + n];
      assert part[..n - 1] == hist[base..base + (n - 1)];
      EventsOfRecord(cfg, part[n - 1], sink);
    }
  }

  lemma NextKeepsSends(e: Setup, s: System, op: Op)
    requires Inv(e, s) && NodesOk(e, s) && SendsOk(e, s)
    ensures SendsOk(e, Next(e, s, op))
  {
    hide Inv, NodesOk, SendsOk, LogOk, AcksHold, AtLeastOnce, TornStarts, MemoryOk, PassOk, AllEncodable, AppendAll,
         Placed, CrashLayout, Restart, ReadCheckpoint, EntriesAfter, Pass, CoveredIds, Without, Between, Numbered,
         OfNodeAll;
    var s1 := Next(e, s, op);
    InvParts(e, s);
    LogIsOrdered(e.codec, s.segs, s.checkpoint, s.hist);
    NextOnlyAdds(e, s, op);
    if op.Perform? && Enabled(e, s, op) {
      EffectKeepsSends(e, s, op.gone);
    } else {
      HistoryKeepsSends(e, s, s1);
    }
  }

  lemma EffectKeepsSends(e: Setup, s: System, gone: set<nat>)
    requires Enabled(e, s, Perform(gone)) && PassOk(e, s, s.pass.value) && Numbered(s.hist)
    requires NodesOk(e, s) && SendsOk(e, s)
    ensures SendsOk(e, Do(e, s, Perform(gone)))
  {
    hide SendOk, PassOk, NodesOk, CoveredIds, Without, Between, Numbered, OfNodeAll;
    var s1, run := Do(e, s, Perform(gone)), s.pass.value;
    assert s1.log == s.log + [run.todo[0]] && s1.origin == s.origin + [run.cfg] && s1.hist == s.hist;
    if run.todo[0].Send? {
      HistoryOfNode(e, s);
      SoundSendIsOk(e, s, run);
    }
  }

  lemma HistoryOfNode(e: Setup, s: System)
    requires NodesOk(e, s)
    ensures OfNodeAll(s.hist, e.nodeId)
  {
  }

  /** The passes behind the effects, and the one under way, have one of these configurations. */
  ghost predicate Configured(s: System, allowed: iset<Config>) {
    (forall i :: 0 <= i < |s.origin| ==> s.origin[i] in allowed) && (s.pass.Some? ==> s.pass.value.cfg in allowed)
  }

  lemma NextIsConfigured(e: Setup, s: System, op: Op, allowed: iset<Config>)
    requires Configured(s, allowed) && (op.BeginPass? ==> op.cfg in allowed)
    ensures Configured(Next(e, s, op), allowed)
  {
    hide AppendAll, Placed, CrashLayout, Restart, AllEncodable, TornFrom, ReadCheckpoint, EntriesAfter, Pass,
         CoveredIds, Without, Between, ActiveId, NextLsn, FileLen;
  }

  lemma {:induction false} RunIsConfigured(e: Setup, s: System, ops: seq<Op>, allowed: iset<Config>)
    requires Configured(s, allowed) && forall n :: 0 <= n < |ops| && ops[n].BeginPass? ==> ops[n].cfg in allowed
    ensures Configured(Run(e, s, ops), allowed)
    decreases |ops|
  {
    hide Next, Configured;
    if ops != [] {
      NextIsConfigured(e, s, ops[0], allowed);
      assert forall n :: 0 <= n < |ops| - 1 ==> ops[1..][n] == ops[n + 1];
      RunIsConfigured(e, Next(e, s, ops[0]), ops[1..], allowed);
    }
  }

  lemma {:induction false} RunKeepsSends(e: Setup, s: System, ops: seq<Op>)
    requires Inv(e, s) && NodesOk(e, s) && SendsOk(e, s)
    ensures NodesOk(e, Run(e, s, ops)) && SendsOk(e, Run(e, s, ops))
    decreases |ops|
  {
    hide Inv, Next, NodesOk, SendsOk;
    if ops != [] {
      NextKeepsInv(e, s, ops[0]);
      NextKeepsNodes(e, s, ops[0]);
      NextKeepsSends(e, s, ops[0]);
      RunKeepsSends(e, Next(e, s, ops[0]), ops[1..]);
    }
  }

  // ---- main result ----------------------------------------------------------------------------

  /** The configurations with which a run begins passes. */
  ghost function Begun(ops: seq<Op>): iset<Config> {
    iset n | 0 <= n < |ops| && ops[n].BeginPass? :: ops[n].cfg
  }

  /** In every run each batch ever sent is a run of what the durable records emit under the configuration of the pass
      that sent it: in log order, of this node, and with metadata that names this node and the batch's own first and
      last LSN. */
  lemma RunsSendInOrder(e: Setup, ops: seq<Op>, i: nat)
    requires i < |Run(e, Initial(), ops).log| && Run(e, Initial(), ops).log[i].Send?
    ensures var s := Run(e, Initial(), ops);
            var send := s.log[i];
            && |s.origin| == |s.log| && s.origin[i] in Begun(ops)
            && IsRun(Emission(s.origin[i], s.hist, send.sink), send.events)
            && send.events != []
            && send.metadata == Metadata(e.nodeId, send.events[0].lsn, send.events[|send.events| - 1].lsn)
            && InOrder(send.events) && OfNode(send.events, e.nodeId)
  {
    hide Run, Inv, LogOk, AcksHold, AtLeastOnce, TornStarts, PassOk, Emission, InOrder, OfNode, OnePerRecord, IsRun,
         Begun, OfNodeAll;
    var s := Run(e, Initial(), ops);
    RunHolds(e, ops);
    EmissionOrder(s.origin[i], s.hist, e.nodeId, s.log[i].sink);
    RunKeepsOrder(Emission(s.origin[i], s.hist, s.log[i].sink), s.log[i].events);
  }

  /** The facts on sends that hold after every run. */
  lemma RunHolds(e: Setup, ops: seq<Op>)
    ensures var s := Run(e, Initial(), ops);
            && Numbered(s.hist) && OfNodeAll(s.hist, e.nodeId) && SendsOk(e, s) && Configured(s, Begun(ops))
  {
    hide Run, Inv, LogOk, AcksHold, AtLeastOnce, TornStarts, PassOk, SendOk;
    var s := Run(e, Initial(), ops);
    InitialInv(e);
    RunKeepsInv(e, Initial(), ops);
    RunKeepsSends(e, Initial(), ops);
    RunIsConfigured(e, Initial(), ops, Begun(ops));
    InvParts(e, s);
    LogIsOrdered(e.codec, s.segs, s.checkpoint, s.hist);
  }
}
