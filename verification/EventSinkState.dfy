/** The event sink router and its version-checked refresh, whose snapshot takes one read per sink
    (src/sinks/state.rs, `list_enabled_runtime_sinks` in src/repositories/event_sinks.rs). */
module EventSinkState {
  import opened Wrappers
  import opened VersionedTables
  import opened EventSinkRouting

  type SinkDatabase = Database<Tables, Tx, TxError>

  ghost predicate Usable(db: SinkDatabase)
    reads db
  {
    db.Valid() && forall t :: db.ok(t) ==> TablesOk(t)
  }

  /** A database over consistent tables stays consistent whatever other connections commit. */
  method Connect(t: Tables, version: nat, upcoming: seq<Step<Tx>>, pace: seq<nat>) returns (db: SinkDatabase)
    requires TablesOk(t) && NoSharedReads(After(Outcome, Server(t, version, [], map[]), upcoming))
    ensures fresh(db) && Usable(db) && TablesOf(db.server) == t && VersionOf(db.server) == version
            && db.apply == Outcome
  {
    forall t, tx | TablesOk(t) && Outcome(t, tx).Success? ensures TablesOk(Outcome(t, tx).value) {
      OutcomeKeepsTables(t, tx);
    }
    db := new Database(Outcome, TablesOk, t, version, upcoming, pace);
  }

  /** `list_enabled_runtime_sinks`: one read for the sinks and one for each sink's target. The result is meaningful
      only if no transaction came in between, and then it is what a single read would have given. */
  method ListEnabledRuntimeSinks(db: SinkDatabase) returns (sinks: seq<RuntimeSink>)
    requires db.Valid()
    modifies db
    ensures db.Valid() && db.Later()
    ensures VersionOf(db.server) == old(VersionOf(db.server)) ==> sinks == RuntimeSinks(old(TablesOf(db.server)))
  {
    hide EnabledSinks, Resolved, NoSharedReads, After, Fresh, TablesOk;
    var first := db.Read();
    var enabled := EnabledSinks(first.sinks);
    sinks := [];
    assert enabled[0..] == enabled;
    for n := 0 to |enabled|
      invariant db.Valid() && db.Later()
      invariant VersionOf(db.server) == old(VersionOf(db.server)) ==>
                  sinks + ResolveAll(enabled[n..], old(TablesOf(db.server)).targets)
                  == RuntimeSinks(old(TablesOf(db.server)))
    {
      var t := db.Read();
      assert enabled[n..][0] == enabled[n] && enabled[n..][1..] == enabled[n + 1..];
      sinks := sinks + Resolved(enabled[n], t.targets);
    }
    assert enabled[|enabled|..] == [];
  }

  lemma TornReadSteps()
    ensures var old0, new0 := Target("k", "c", true), Target("k", "d", true);
            var t0 := Tables(map[0 := old0], [Sink(0, "s", 0, "a", false, true)], 1, 1);
            var t1 := Tables(map[0 := old0], [Sink(0, "s", 0, "b", false, true)], 1, 1);
            && TablesOk(t0)
            && Outcome(t0, UpdateSink(0, None, Some("b"), None, None)) == Success(t1)
            && Outcome(t1, UpdateTarget(0, Some("d"), None)) == Success(t1.(targets := map[0 := new0]))
  {
    assert SinkIdChar('s');
    var s0, s1 := Sink(0, "s", 0, "a", false, true), Sink(0, "s", 0, "b", false, true);
    var old0, new0 := Target("k", "c", true), Target("k", "d", true);
    assert [s0][0 := s1] == [s1] && map[0 := old0][0 := new0] == map[0 := new0];
  }

  /** Why the version is read again: a sink read before one commit and its target after the next make up a router that
      no version of the tables ever had. */
  lemma TornReadMatchesNoVersion()
    ensures var t0 := Tables(map[0 := Target("k", "c", true)], [Sink(0, "s", 0, "a", false, true)], 1, 1);
            var t1 := Outcome(t0, UpdateSink(0, None, Some("b"), None, None));
            && TablesOk(t0) && t1.Success?
            && var t2 := Outcome(t1.value, UpdateTarget(0, Some("d"), None));
            && t2.Success?
            && ResolveAll(EnabledSinks(t0.sinks), t2.value.targets) !in
                 {RuntimeSinks(t0), RuntimeSinks(t1.value), RuntimeSinks(t2.value)}
  {
    hide Outcome, TablesOk, ResolveAll, EnabledSinks;
    TornReadSteps();
    var s0, s1 := Sink(0, "s", 0, "a", false, true), Sink(0, "s", 0, "b", false, true);
    var old0, new0 := Target("k", "c", true), Target("k", "d", true);
    ResolveOne(s0, map[0 := old0]);
    ResolveOne(s1, map[0 := old0]);
    ResolveOne(s1, map[0 := new0]);
    ResolveOne(s0, map[0 := new0]);
  }

  /** If reads are shared, even the second look at the version does not help: three transactions read version 1 and
      commit version 2 each. Sinks read after the first commit and their targets after the third make up a router that
      no version ever had, and both looks find version 2. */
  lemma TornReadPassesTheCheck()
    ensures var t0 := Tables(map[0 := Target("k", "c", true)], [Sink(0, "s", 0, "x", false, true)], 1, 1);
            var first, second := UpdateSink(0, None, Some("a"), None, None), UpdateSink(0, None, Some("b"), None, None);
            var steps := [BumpRead(1), BumpRead(2), BumpRead(3), Commit(1, first)];
            var later := [Commit(2, second), Commit(3, UpdateTarget(0, Some("d"), None))];
            var start := Server(t0, 1, [], map[]);
            var before, end := After(Outcome, start, steps), After(Outcome, start, steps + later);
            && VersionOf(before) == VersionOf(end) == 2 && |end.trail| == 3
            && ResolveAll(EnabledSinks(TablesOf(before).sinks), TablesOf(end).targets) !in
                 {RuntimeSinks(end.trail[0].tables), RuntimeSinks(end.trail[1].tables),
                  RuntimeSinks(end.trail[2].tables)}
  {
    var sx, sa := Sink(0, "s", 0, "x", false, true), Sink(0, "s", 0, "a", false, true);
    var sb := Sink(0, "s", 0, "b", false, true);
    var c, d := map[0 := Target("k", "c", true)], map[0 := Target("k", "d", true)];
    var first, second := UpdateSink(0, None, Some("a"), None, None), UpdateSink(0, None, Some("b"), None, None);
    var third := UpdateTarget(0, Some("d"), None);
    var t0, t1, t2, t3 := Tables(c, [sx], 1, 1), Tables(c, [sa], 1, 1), Tables(c, [sb], 1, 1), Tables(d, [sb], 1, 1);
    assert [sx][0 := sa] == [sa] && [sa][0 := sb] == [sb] && c[0 := Target("k", "d", true)] == d;
    assert Outcome(t0, first) == Success(t1) && Outcome(t1, second) == Success(t2) && Outcome(t2, third) == Success(t3);
    SharedBumps(t0, t1, t2, t3, first, second, third);
    ResolveOne(sa, c);
    ResolveOne(sb, c);
    ResolveOne(sb, d);
    ResolveOne(sa, d);
    hide After, Outcome, EnabledSinks, ResolveAll;
  }

  lemma SharedBumps(t0: Tables, t1: Tables, t2: Tables, t3: Tables, first: Tx, second: Tx, third: Tx)
    requires Outcome(t0, first) == Success(t1) && Outcome(t1, second) == Success(t2)
             && Outcome(t2, third) == Success(t3)
    ensures var steps := [BumpRead(1), BumpRead(2), BumpRead(3), Commit(1, first)];
            var later, start := [Commit(2, second), Commit(3, third)], Server(t0, 1, [], map[]);
            && After(Outcome, start, steps).trail == [Committed(1, t1)]
            && After(Outcome, start, steps + later).trail == [Committed(1, t1), Committed(1, t2), Committed(1, t3)]
  {
    hide Outcome, After;
    var steps := [BumpRead(1), BumpRead(2), BumpRead(3), Commit(1, first)];
    var start := Server(t0, 1, [], map[]);
    ThreeAndFourSteps(Outcome, start, steps[0], steps[1], steps[2], steps[3]);
    var s3 := After(Outcome, start, [steps[0], steps[1], steps[2]]);
    assert s3.trail == [] && s3.origin == t0 && forall i :: 1 <= i <= 3 ==> i in s3.seen && s3.seen[i] == 1;
    CommitOfReader(s3, 1, first);
    var s4 := After(Outcome, start, steps);
    var five, six := steps + [Commit(2, second)], steps + [Commit(2, second), Commit(3, third)];
    OneMoreStep(Outcome, start, steps, Commit(2, second));
    CommitOfReader(s4, 2, second);
    OneMoreStep(Outcome, start, five, Commit(3, third));
    CommitOfReader(After(Outcome, start, five), 3, third);
    assert five + [Commit(3, third)] == six;
  }

  lemma CommitOfReader(s: Server<Tables>, i: nat, tx: Tx)
    requires i in s.seen && Outcome(TablesOf(s), tx).Success?
    ensures var out := Taken(Outcome, s, Commit(i, tx));
            && out.trail == s.trail + [Committed(s.seen[i], Outcome(TablesOf(s), tx).value)]
            && TablesOf(out) == Outcome(TablesOf(s), tx).value && out.seen == s.seen - {i}
  {
    hide Outcome;
  }

  lemma ResolveOne(s: Sink, targets: map<nat, Target>)
    requires s.enabled
    ensures EnabledSinks([s]) == [s] && ResolveAll([s], targets) == Resolved(s, targets)
  {
    assert [s][..0] == [] && [s][1..] == [];
    assert EnabledSinks([s]) == EnabledSinks([]) + [s];
  }

  /** `EventRouter::from_runtime_sinks`; a sink that cannot be built fails the whole router. */
  method FromRuntimeSinks(sinks: seq<RuntimeSink>, builds: RuntimeSink -> bool)
    returns (res: Result<map<string, RuntimeSink>, RuntimeSink>)
    ensures res.Success? ==> res.value == Router(sinks) && forall r :: r in sinks ==> builds(r)
    ensures res.Failure? ==> res.error in sinks && !builds(res.error)
  {
    var router: map<string, RuntimeSink> := map[];
    assert sinks[..0] == [];
    for n := 0 to |sinks|
      invariant router == Router(sinks[..n])
      invariant forall r :: r in sinks[..n] ==> builds(r)
    {
      if !builds(sinks[n]) { return Failure(sinks[n]); }
      assert sinks[..n + 1][..n] == sinks[..n];
      router := router[sinks[n].sinkId := sinks[n]];
    }
    assert sinks[..|sinks|] == sinks;
    return Success(router);
  }

  /** The loop of `load_router_snapshot`: read version, sinks, version, and start over while a writer got in between. */
  method ReadStableSinks(db: SinkDatabase) returns (sinks: seq<RuntimeSink>, version: nat)
    requires Usable(db)
    modifies db
    ensures Usable(db) && db.Later()
    ensures VersionOf(old(db.server)) <= version <= VersionOf(db.server) && Had(db.server, version)
    ensures sinks == RuntimeSinks(TablesAt(db.server, version))
  {
    hide RuntimeSinks, TablesOk, NoSharedReads, After, Fresh;
    while true
      invariant db.Valid() && db.Later()
      decreases |db.upcoming|
    {
      var before := db.ReadVersion();
      sinks := ListEnabledRuntimeSinks(db);
      version := db.ReadVersion();
      if before == version {
        db.Present();
        return;
      }
    }
  }

  /** `load_router_snapshot`. */
  method LoadRouterSnapshot(db: SinkDatabase, builds: RuntimeSink -> bool)
    returns (res: Result<(map<string, RuntimeSink>, nat), RuntimeSink>)
    requires Usable(db)
    modifies db
    ensures Usable(db) && db.Later()
    ensures res.Success? ==>
              var (router, version) := res.value;
              && VersionOf(old(db.server)) <= version <= VersionOf(db.server) && Had(db.server, version)
              && router == Router(RuntimeSinks(TablesAt(db.server, version)))
    ensures res.Failure? ==>
              exists v :: Had(db.server, v) && res.error in RuntimeSinks(TablesAt(db.server, v)) && !builds(res.error)
  {
    hide RuntimeSinks, Router, TablesOk, NoSharedReads, After, Fresh;
    var sinks, version := ReadStableSinks(db);
    var built := FromRuntimeSinks(sinks, builds);
    if built.Failure? { return Failure(built.error); }
    return Success((built.value, version));
  }

  class EventSinkState {
    const db: SinkDatabase
    const builds: RuntimeSink -> bool
    var router: map<string, RuntimeSink>
    var version: nat

    /** The installed router is the one of exactly the recorded version. */
    ghost predicate Valid()
      reads this, db
    {
      Usable(db) && Had(db.server, version) && router == Router(RuntimeSinks(TablesAt(db.server, version)))
    }

    /** `load`, once a snapshot could be built. */
    constructor (db: SinkDatabase, builds: RuntimeSink -> bool, router: map<string, RuntimeSink>, version: nat)
      requires Usable(db) && Had(db.server, version) && router == Router(RuntimeSinks(TablesAt(db.server, version)))
      ensures Valid() && this.db == db && this.builds == builds && this.version == version
    {
      this.db, this.builds, this.router, this.version := db, builds, router, version;
    }

    /** `refresh_if_needed`: a success leaves a router at least as new as the database was at the call, a failure
        leaves the old one in place. */
    method RefreshIfNeeded() returns (res: Result<bool, RuntimeSink>)
      requires Valid()
      modifies this, db
      ensures Valid() && db.Later()
      ensures res.Success? ==> old(VersionOf(db.server)) <= version <= VersionOf(db.server)
      ensures res == Success(true) ==> old(version) < version
      ensures res != Success(true) ==> version == old(version) && router == old(router)
      ensures res.Failure? ==>
                exists v :: Had(db.server, v) && res.error in RuntimeSinks(TablesAt(db.server, v)) && !builds(res.error)
    {
      hide RuntimeSinks, Router, TablesOk, Outcome, NoSharedReads, After, Fresh, Had, TablesAt;
      ghost var before := db.server;
      var latest := db.ReadVersion();
      HadStays(before, db.server, version);
      if latest == version { return Success(false); }
      var loaded := LoadRouterSnapshot(db, builds);
      HadStays(before, db.server, version);
      if loaded.Failure? { return Failure(loaded.error); }
      var (newRouter, newVersion) := loaded.value;
      if newVersion <= version { return Success(false); }
      router, version := newRouter, newVersion;
      return Success(true);
    }

    /** The lookup of `send_event_batch_to_sink`: a name is known exactly if, at the installed version, an enabled sink
        has it whose target is enabled; any other name is an unknown sink. */
    method Route(name: string) returns (sink: Option<RuntimeSink>)
      requires Valid()
      ensures var t := TablesAt(db.server, version);
              && (sink.Some? <==> exists s :: s in t.sinks && s.sinkId == name && Serves(t, s))
              && (forall s :: s in t.sinks && s.sinkId == name && Serves(t, s) ==>
                    sink == Some(RuntimeSink(name, s.destination, s.latest, t.targets[s.target])))
    {
      hide RuntimeSinks, Router, NoSharedReads, After, Fresh;
      db.Consistent(version);
      RouterServes(TablesAt(db.server, version), name);
      sink := if name in router then Some(router[name]) else None;
    }
  }
}
