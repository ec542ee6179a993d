/** Event sinks and delivery targets: the tables, their transactions and the router built from them
    (src/repositories/event_sinks.rs, src/sinks/state.rs). */
module EventSinkRouting {
  import opened Wrappers

  datatype Target = Target(targetId: string, config: string, enabled: bool)

  datatype Sink = Sink(id: nat, sinkId: string, target: nat, destination: string, latest: bool, enabled: bool)

  datatype RuntimeSink = RuntimeSink(sinkId: string, destination: string, latest: bool, target: Target)

  /** Delivery targets by id, event sinks in id order, and the ids to hand out next. */
  datatype Tables = Tables(targets: map<nat, Target>, sinks: seq<Sink>, nextTarget: nat, nextSink: nat)

  datatype Tx =
    | CreateTarget(targetId: string, config: string, enabled: bool)
    | UpdateTarget(id: nat, newConfig: Option<string>, newEnabled: Option<bool>)
    | DeleteTarget(id: nat)
    | CreateSink(sinkId: string, target: nat, destination: string, latest: bool, sinkEnabled: bool)
    | UpdateSink(id: nat, newTarget: Option<nat>, newDestination: Option<string>, newLatest: Option<bool>,
                 newEnabled: Option<bool>)
    | DeleteSink(id: nat)

  datatype TxError =
    TargetNotFound | SinkNotFound | TargetInUse | DuplicateTarget | DuplicateSink | InvalidSinkId

  // ---- the tables -----------------------------------------------------------------------------

  predicate SinkIdChar(c: char) {
    'a' <= c <= 'z' || 'A' <= c <= 'Z' || '0' <= c <= '9' || c == '_' || c == '-' || c == '.'
  }

  /** `validate_event_sink_id`. */
  predicate ValidSinkId(s: string) {
    s != "" && forall i :: 0 <= i < |s| ==> SinkIdChar(s[i])
  }

  ghost predicate SinksOk(sinks: seq<Sink>, nextSink: nat) {
    && (forall i :: 0 <= i < |sinks| ==> ValidSinkId(sinks[i].sinkId) && sinks[i].id < nextSink)
    && (forall i, j :: 0 <= i < j < |sinks| ==> sinks[i].id < sinks[j].id && sinks[i].sinkId != sinks[j].sinkId)
  }

  ghost predicate TargetsOk(targets: map<nat, Target>, nextTarget: nat) {
    && (forall id :: id in targets ==> id < nextTarget)
    && (forall a, b :: a in targets && b in targets && targets[a].targetId == targets[b].targetId ==> a == b)
  }

  /** Every sink refers to a target that exists. */
  ghost predicate Referential(t: Tables) {
    forall i :: 0 <= i < |t.sinks| ==> t.sinks[i].target in t.targets
  }

  ghost predicate TablesOk(t: Tables) {
    SinksOk(t.sinks, t.nextSink) && TargetsOk(t.targets, t.nextTarget) && Referential(t)
  }

  function IndexOf(sinks: seq<Sink>, id: nat): (i: Option<nat>)
    ensures i.Some? ==> i.value < |sinks| && sinks[i.value].id == id
    ensures i.None? ==> forall k :: 0 <= k < |sinks| ==> sinks[k].id != id
  {
    if sinks == [] then None
    else if sinks[|sinks| - 1].id == id then Some(|sinks| - 1)
    else IndexOf(sinks[..|sinks| - 1], id)
  }

  predicate TargetIdTaken(t: Tables, targetId: string) {
    exists id :: id in t.targets && t.targets[id].targetId == targetId
  }

  predicate InUse(t: Tables, target: nat) {
    exists i :: 0 <= i < |t.sinks| && t.sinks[i].target == target
  }

  predicate SinkIdTaken(t: Tables, sinkId: string) {
    exists i :: 0 <= i < |t.sinks| && t.sinks[i].sinkId == sinkId
  }

  /** The tables after a transaction, or why it is rolled back. */
  function Outcome(t: Tables, tx: Tx): Result<Tables, TxError> {
    match tx
    case CreateTarget(targetId, config, enabled) =>
      if TargetIdTaken(t, targetId) then Failure(DuplicateTarget)
      else Success(t.(targets := t.targets[t.nextTarget := Target(targetId, config, enabled)],
                      nextTarget := t.nextTarget + 1))
    case UpdateTarget(id, config, enabled) =>
      if id !in t.targets then Failure(TargetNotFound)
      else
        var current := t.targets[id];
        var changed := Target(current.targetId, Or(config, current.config), Or(enabled, current.enabled));
        Success(t.(targets := t.targets[id := changed]))
    case DeleteTarget(id) =>
      if id !in t.targets then Failure(TargetNotFound)
      else if InUse(t, id) then Failure(TargetInUse)
      else Success(t.(targets := t.targets - {id}))
    case CreateSink(sinkId, target, destination, latest, enabled) =>
      if !ValidSinkId(sinkId) then Failure(InvalidSinkId)
      else if target !in t.targets then Failure(TargetNotFound)
      else if SinkIdTaken(t, sinkId) then Failure(DuplicateSink)
      else Success(t.(sinks := t.sinks + [Sink(t.nextSink, sinkId, target, destination, latest, enabled)],
                      nextSink := t.nextSink + 1))
    case UpdateSink(id, target, destination, latest, enabled) =>
      var i := IndexOf(t.sinks, id);
      if i.None? then Failure(SinkNotFound)
      else
        var s := t.sinks[i.value];
        var to := Or(target, s.target);
        if to !in t.targets then Failure(TargetNotFound)
        else Success(t.(sinks := t.sinks[i.value := Sink(s.id, s.sinkId, to, Or(destination, s.destination),
                                                         Or(latest, s.latest), Or(enabled, s.enabled))]))
    case DeleteSink(id) =>
      var i := IndexOf(t.sinks, id);
      if i.None? then Failure(SinkNotFound)
      else Success(t.(sinks := t.sinks[..i.value] + t.sinks[i.value + 1..]))
  }

  lemma PutSinkKeepsSinks(sinks: seq<Sink>, nextSink: nat, i: nat, s: Sink)
    requires SinksOk(sinks, nextSink) && i <= |sinks|
    requires i < |sinks| ==> s.id == sinks[i].id && s.sinkId == sinks[i].sinkId
    requires i == |sinks| ==>
               s.id == nextSink && ValidSinkId(s.sinkId) && forall k :: 0 <= k < |sinks| ==> sinks[k].sinkId != s.sinkId
    ensures i < |sinks| ==> SinksOk(sinks[i := s], nextSink)
    ensures i == |sinks| ==> SinksOk(sinks + [s], nextSink + 1)
  {
    hide ValidSinkId;
  }

  lemma DeleteSinkKeepsSinks(sinks: seq<Sink>, nextSink: nat, i: nat)
    requires SinksOk(sinks, nextSink) && i < |sinks|
    ensures SinksOk(sinks[..i] + sinks[i + 1..], nextSink)
  {
    hide ValidSinkId;
    var out := sinks[..i] + sinks[i + 1..];
    assert forall k :: 0 <= k < |out| ==> out[k] == if k < i then sinks[k] else sinks[k + 1];
  }

  lemma OutcomeKeepsTargets(t: Tables, tx: Tx)
    requires TargetsOk(t.targets, t.nextTarget) && Outcome(t, tx).Success?
    ensures var out := Outcome(t, tx).value; TargetsOk(out.targets, out.nextTarget)
  {
    hide ValidSinkId, IndexOf;
  }

  lemma OutcomeKeepsReferences(t: Tables, tx: Tx)
    requires TargetsOk(t.targets, t.nextTarget) && Referential(t) && Outcome(t, tx).Success?
    ensures Referential(Outcome(t, tx).value)
  {
    hide ValidSinkId, IndexOf, SinkIdTaken, TargetIdTaken;
    if tx.DeleteSink? {
      var i := IndexOf(t.sinks, tx.id).value;
      var out := t.sinks[..i] + t.sinks[i + 1..];
      assert forall k :: 0 <= k < |out| ==> out[k] == if k < i then t.sinks[k] else t.sinks[k + 1];
    }
  }

  /** Transactions keep ids unique and no sink without its target. */
  lemma OutcomeKeepsTables(t: Tables, tx: Tx)
    requires TablesOk(t) && Outcome(t, tx).Success?
    ensures TablesOk(Outcome(t, tx).value)
  {
    hide SinksOk, TargetsOk, Referential, ValidSinkId, TargetIdTaken, InUse;
    OutcomeKeepsTargets(t, tx);
    OutcomeKeepsReferences(t, tx);
    var out := Outcome(t, tx).value;
    match tx
    case CreateSink(sinkId, target, destination, latest, enabled) =>
      PutSinkKeepsSinks(t.sinks, t.nextSink, |t.sinks|, Sink(t.nextSink, sinkId, target, destination, latest, enabled));
    case UpdateSink(id, _, _, _, _) =>
      var i := IndexOf(t.sinks, id).value;
      PutSinkKeepsSinks(t.sinks, t.nextSink, i, out.sinks[i]);
    case DeleteSink(id) =>
      DeleteSinkKeepsSinks(t.sinks, t.nextSink, IndexOf(t.sinks, id).value);
    case CreateTarget(_, _, _) =>
    case UpdateTarget(_, _, _) =>
    case DeleteTarget(_) =>
  }

  ghost predicate OtherTargetsKept(t: Tables, out: Tables, id: nat) {
    && (forall a :: a != id ==> (a in t.targets <==> a in out.targets))
    && (forall a :: a != id && a in t.targets && a in out.targets ==> out.targets[a] == t.targets[a])
  }

  ghost predicate OtherSinksKept(t: Tables, out: Tables, id: nat) {
    forall s: Sink :: s.id != id ==> (s in t.sinks <==> s in out.sinks)
  }

  /** A transaction on a delivery target stores what it is given, keeps what it is not, and leaves everything else as it
      was. */
  lemma TargetTransactions(t: Tables, tx: Tx)
    requires TablesOk(t) && Outcome(t, tx).Success? && (tx.CreateTarget? || tx.UpdateTarget? || tx.DeleteTarget?)
    ensures var out := Outcome(t, tx).value;
            out.sinks == t.sinks
            && match tx
               case CreateTarget(targetId, config, enabled) =>
                 && t.nextTarget !in t.targets && OtherTargetsKept(t, out, t.nextTarget)
                 && t.nextTarget in out.targets && out.targets[t.nextTarget] == Target(targetId, config, enabled)
               case UpdateTarget(id, config, enabled) =>
                 && id in t.targets && id in out.targets && OtherTargetsKept(t, out, id)
                 && out.targets[id].targetId == t.targets[id].targetId
                 && out.targets[id].config == (match config case Some(v) => v case None => t.targets[id].config)
                 && out.targets[id].enabled == (match enabled case Some(v) => v case None => t.targets[id].enabled)
               case DeleteTarget(id) => id !in out.targets && OtherTargetsKept(t, out, id)
               case _ => true
  {
    hide ValidSinkId, SinksOk, TargetIdTaken, InUse;
  }

  lemma CreateSinkAddsTheRow(t: Tables, tx: Tx)
    requires TablesOk(t) && Outcome(t, tx).Success? && tx.CreateSink?
    ensures var out := Outcome(t, tx).value;
            && out.targets == t.targets && OtherSinksKept(t, out, t.nextSink)
            && forall s :: s in out.sinks && s.id == t.nextSink <==>
                 s == Sink(t.nextSink, tx.sinkId, tx.target, tx.destination, tx.latest, tx.sinkEnabled)
  {
    hide ValidSinkId, SinkIdTaken;
    assert forall s :: s in t.sinks ==> s.id < t.nextSink;
  }

  lemma UpdateSinkChangesTheRow(t: Tables, tx: Tx, s: Sink)
    requires TablesOk(t) && Outcome(t, tx).Success? && tx.UpdateSink? && s in t.sinks && s.id == tx.id
    ensures var out := Outcome(t, tx).value;
            && out.targets == t.targets && OtherSinksKept(t, out, tx.id)
            && exists r :: r in out.sinks && r.id == tx.id
    ensures forall r :: r in Outcome(t, tx).value.sinks && r.id == tx.id ==>
              && r.sinkId == s.sinkId
              && r.target == (match tx.newTarget case Some(v) => v case None => s.target)
              && r.destination == (match tx.newDestination case Some(v) => v case None => s.destination)
              && r.latest == (match tx.newLatest case Some(v) => v case None => s.latest)
              && r.enabled == (match tx.newEnabled case Some(v) => v case None => s.enabled)
  {
    hide ValidSinkId, SinksOk, TargetsOk, Referential;
    OutcomeKeepsTables(t, tx);
    var i, out := IndexOf(t.sinks, tx.id).value, Outcome(t, tx).value.sinks;
    SinkOfId(t.sinks, t.nextSink, i);
    SinkOfId(out, t.nextSink, i);
    OneRowChanged(t.sinks, i, out[i]);
    assert out == t.sinks[i := out[i]] && out[i] in out && out[i].id == tx.id;
  }

  lemma OneRowChanged(sinks: seq<Sink>, i: nat, r: Sink)
    requires i < |sinks| && r.id == sinks[i].id
    ensures forall s: Sink :: s.id != r.id ==> (s in sinks <==> s in sinks[i := r])
  {
    var out := sinks[i := r];
    forall s: Sink | s.id != r.id ensures s in sinks <==> s in out {
      if s in sinks {
        var k :| 0 <= k < |sinks| && sinks[k] == s;
        assert out[k] == s;
      }
    }
  }

  lemma SinkOfId(sinks: seq<Sink>, nextSink: nat, i: nat)
    requires SinksOk(sinks, nextSink) && i < |sinks|
    ensures forall s :: s in sinks && s.id == sinks[i].id ==> s == sinks[i]
  {
    hide ValidSinkId;
  }

  lemma DeleteSinkRemovesTheRow(t: Tables, tx: Tx)
    requires TablesOk(t) && Outcome(t, tx).Success? && tx.DeleteSink?
    ensures var out := Outcome(t, tx).value;
            && out.targets == t.targets && OtherSinksKept(t, out, tx.id)
            && forall s :: s in out.sinks ==> s.id != tx.id
  {
    hide ValidSinkId;
    var i, out := IndexOf(t.sinks, tx.id).value, Outcome(t, tx).value.sinks;
    assert t.sinks == t.sinks[..i] + [t.sinks[i]] + t.sinks[i + 1..];
    assert forall k :: 0 <= k < |out| ==> out[k] == if k < i then t.sinks[k] else t.sinks[k + 1];
  }

  /** A transaction succeeds exactly if what it names is there, a target it deletes is not in use, and a new name is
      valid and free. */
  lemma SucceedsExactlyWhen(t: Tables, tx: Tx)
    requires TablesOk(t)
    ensures Outcome(t, tx).Success? <==>
              match tx
              case CreateTarget(targetId, _, _) => forall id :: id in t.targets ==> t.targets[id].targetId != targetId
              case UpdateTarget(id, _, _) => id in t.targets
              case DeleteTarget(id) => id in t.targets && forall s :: s in t.sinks ==> s.target != id
              case CreateSink(sinkId, target, _, _, _) =>
                && sinkId != "" && (forall c :: c in sinkId ==> SinkIdChar(c)) && target in t.targets
                && forall s :: s in t.sinks ==> s.sinkId != sinkId
              case UpdateSink(id, target, _, _, _) =>
                && (exists s :: s in t.sinks && s.id == id)
                && (match target case Some(v) => v in t.targets case None => true)
              case DeleteSink(id) => exists s :: s in t.sinks && s.id == id
  {
    assert forall i :: 0 <= i < |t.sinks| ==> t.sinks[i] in t.sinks;
  }

  // ---- the router -----------------------------------------------------------------------------

  function EnabledSinks(sinks: seq<Sink>): seq<Sink> {
    if sinks == [] then []
    else EnabledSinks(sinks[..|sinks| - 1]) + if sinks[|sinks| - 1].enabled then [sinks[|sinks| - 1]] else []
  }

  /** What one sink contributes: nothing if its target is gone or switched off. */
  function Resolved(s: Sink, targets: map<nat, Target>): seq<RuntimeSink> {
    if s.target in targets && targets[s.target].enabled
    then [RuntimeSink(s.sinkId, s.destination, s.latest, targets[s.target])] else []
  }

  function ResolveAll(sinks: seq<Sink>, targets: map<nat, Target>): seq<RuntimeSink> {
    if sinks == [] then [] else Resolved(sinks[0], targets) + ResolveAll(sinks[1..], targets)
  }

  /** `list_enabled_runtime_sinks`, were it a single read. */
  function RuntimeSinks(t: Tables): seq<RuntimeSink> {
    ResolveAll(EnabledSinks(t.sinks), t.targets)
  }

  /** `EventRouter::from_runtime_sinks`: a later sink replaces an earlier one of the same name. */
  function Router(sinks: seq<RuntimeSink>): map<string, RuntimeSink> {
    if sinks == [] then map[]
    else Router(sinks[..|sinks| - 1])[sinks[|sinks| - 1].sinkId := sinks[|sinks| - 1]]
  }

  /** The sink of this row is on, and so is its target. */
  predicate Serves(t: Tables, s: Sink) {
    s.enabled && s.target in t.targets && t.targets[s.target].enabled
  }

  lemma {:induction false} EnabledMembers(sinks: seq<Sink>)
    ensures forall s :: s in EnabledSinks(sinks) <==> s in sinks && s.enabled
  {
    if sinks != [] {
      EnabledMembers(sinks[..|sinks| - 1]);
      assert sinks == sinks[..|sinks| - 1] + [sinks[|sinks| - 1]];
    }
  }

  lemma {:induction false} ResolvedMembers(sinks: seq<Sink>, targets: map<nat, Target>)
    ensures forall s :: s in sinks ==> forall r :: r in Resolved(s, targets) ==> r in ResolveAll(sinks, targets)
    ensures forall r :: r in ResolveAll(sinks, targets) ==> exists s :: s in sinks && r in Resolved(s, targets)
  {
    if sinks != [] {
      ResolvedMembers(sinks[1..], targets);
      assert sinks == [sinks[0]] + sinks[1..];
      forall r | r in ResolveAll(sinks, targets) ensures exists s :: s in sinks && r in Resolved(s, targets) {
        if r in Resolved(sinks[0], targets) {
          assert sinks[0] in sinks;
        } else {
          assert r in ResolveAll(sinks[1..], targets);
          var s :| s in sinks[1..] && r in Resolved(s, targets);
          assert s in sinks;
        }
      }
    }
  }

  lemma {:induction false} RouterMembers(sinks: seq<RuntimeSink>)
    ensures forall name :: name in Router(sinks) ==> Router(sinks)[name] in sinks && Router(sinks)[name].sinkId == name
    ensures forall r :: r in sinks ==> r.sinkId in Router(sinks)
  {
    if sinks != [] {
      RouterMembers(sinks[..|sinks| - 1]);
      assert sinks == sinks[..|sinks| - 1] + [sinks[|sinks| - 1]];
    }
  }

  lemma SameNameSameSink(t: Tables, a: Sink, b: Sink)
    requires TablesOk(t) && a in t.sinks && b in t.sinks && a.sinkId == b.sinkId
    ensures a == b
  {
    var i :| 0 <= i < |t.sinks| && t.sinks[i] == a;
    var j :| 0 <= j < |t.sinks| && t.sinks[j] == b;
    assert i == j;
  }

  /** The router knows a name exactly if an enabled sink has it whose target is enabled, and then knows that sink as
      the tables have it; every other name is an unknown sink. */
  lemma RouterServes(t: Tables, name: string)
    requires TablesOk(t)
    ensures name in Router(RuntimeSinks(t)) <==> exists s :: s in t.sinks && s.sinkId == name && Serves(t, s)
    ensures forall s :: s in t.sinks && Serves(t, s) ==>
              && s.sinkId in Router(RuntimeSinks(t))
              && Router(RuntimeSinks(t))[s.sinkId]
                 == RuntimeSink(s.sinkId, s.destination, s.latest, t.targets[s.target])
  {
    hide TablesOk, EnabledSinks, ResolveAll, Router;
    var enabled, sinks := EnabledSinks(t.sinks), RuntimeSinks(t);
    EnabledMembers(t.sinks);
    ResolvedMembers(enabled, t.targets);
    RouterMembers(sinks);
    forall s | s in t.sinks && Serves(t, s)
      ensures s.sinkId in Router(sinks)
      ensures Router(sinks)[s.sinkId] == RuntimeSink(s.sinkId, s.destination, s.latest, t.targets[s.target])
    {
      assert RuntimeSink(s.sinkId, s.destination, s.latest, t.targets[s.target]) in Resolved(s, t.targets);
      var r := Router(sinks)[s.sinkId];
      var other :| other in enabled && r in Resolved(other, t.targets);
      SameNameSameSink(t, s, other);
    }
    if name in Router(sinks) {
      var s :| s in enabled && Router(sinks)[name] in Resolved(s, t.targets);
      assert s in t.sinks && s.sinkId == name && Serves(t, s);
    }
  }
}
