/** A table set with a version counter that every transaction reads and writes back one higher, read by several
    statements while other connections commit (src/repositories/projects.rs, src/repositories/event_sinks.rs). */
module VersionedTables {
  import opened Wrappers

  // ---- the server -----------------------------------------------------------------------------

  /** What other connections do: a transaction reads the version it will bump, later it commits. */
  datatype Step<X> = BumpRead(session: nat) | Commit(session: nat, tx: X)

  /** A committed transaction: the version it had read, and the tables after it. */
  datatype Committed<T> = Committed(read: nat, tables: T)

  /** The committed state: the tables and version at the start, the commits since, and what open transactions read. */
  datatype Server<T> = Server(origin: T, base: nat, trail: seq<Committed<T>>, seen: map<nat, nat>)

  /** `read_projects_version`, `read_event_sinks_version`: what the last commit wrote. */
  function VersionOf<T>(s: Server<T>): nat {
    if s.trail == [] then s.base else s.trail[|s.trail| - 1].read + 1
  }

  function TablesOf<T>(s: Server<T>): T {
    if s.trail == [] then s.origin else s.trail[|s.trail| - 1].tables
  }

  /** The version this transaction has read; one that has not looked yet reads it now. */
  function ReadBy<T>(s: Server<T>, session: nat): nat {
    if session in s.seen then s.seen[session] else VersionOf(s)
  }

  /** One step. `apply` gives the rows after a transaction, or why it is rolled back; a commit writes the rows and the
      version it has read plus one, whatever the version is by now. */
  function Taken<T, X, E>(apply: (T, X) -> Result<T, E>, s: Server<T>, step: Step<X>): Server<T> {
    match step
    case BumpRead(i) => s.(seen := s.seen[i := VersionOf(s)])
    case Commit(i, tx) =>
      var closed := s.(seen := s.seen - {i});
      match apply(TablesOf(s), tx)
      case Failure(_) => closed
      case Success(t) => closed.(trail := s.trail + [Committed(ReadBy(s, i), t)])
  }

  function After<T, X, E>(apply: (T, X) -> Result<T, E>, s: Server<T>, steps: seq<Step<X>>): Server<T> {
    if steps == [] then s else Taken(apply, After(apply, s, steps[..|steps| - 1]), steps[|steps| - 1])
  }

  /** If commits are serial, the versions there have been, and the tables at each. */
  ghost predicate Had<T>(s: Server<T>, v: nat) {
    s.base <= v <= s.base + |s.trail|
  }

  ghost function TablesAt<T>(s: Server<T>, v: nat): T
    requires Had(s, v)
  {
    if v == s.base then s.origin else s.trail[v - s.base - 1].tables
  }

  ghost predicate Fresh<T>(s: Server<T>) {
    s.trail == [] && s.seen == map[]
  }

  /** No two committed transactions read the same version. */
  ghost predicate NoSharedReads<T>(s: Server<T>) {
    forall i, j :: 0 <= i < j < |s.trail| ==> s.trail[i].read != s.trail[j].read
  }

  // ---- what a version tells -------------------------------------------------------------------

  lemma {:induction false} TrailGrows<T, X, E>(apply: (T, X) -> Result<T, E>, s: Server<T>, steps: seq<Step<X>>, n: nat)
    requires n <= |steps|
    ensures After(apply, s, steps[..n]).trail <= After(apply, s, steps).trail
    ensures After(apply, s, steps).base == s.base && After(apply, s, steps).origin == s.origin
    ensures |After(apply, s, steps).trail| <= |s.trail| + |steps|
    decreases |steps|
  {
    if n == |steps| {
      assert steps[..n] == steps;
      if n > 0 { TrailGrows(apply, s, steps[..n - 1], n - 1); }
    } else {
      TrailGrows(apply, s, steps[..|steps| - 1], n);
      assert steps[..|steps| - 1][..n] == steps[..n];
    }
  }

  /** Commit k read the version that the commit before it had left, and open transactions read an earlier one. */
  ghost predicate Regular<T>(s: Server<T>) {
    && (forall k :: 0 <= k < |s.trail| ==> s.trail[k].read == s.base + k)
    && (forall i :: i in s.seen ==> s.base <= s.seen[i] <= s.base + |s.trail|)
  }

  lemma RegularVersion<T>(s: Server<T>)
    requires Regular(s)
    ensures VersionOf(s) == s.base + |s.trail|
  {
  }

  lemma ReadsDiffer<T>(s: Server<T>, k: nat, n: nat)
    requires NoSharedReads(s) && k <= n < |s.trail|
    ensures s.trail[k].read == s.trail[n].read ==> k == n
  {
  }

  /** One commit keeps the order if it does not share its read with an earlier one. */
  lemma TakenIsRegular<T, X, E>(apply: (T, X) -> Result<T, E>, s: Server<T>, step: Step<X>)
    requires Regular(s) && NoSharedReads(Taken(apply, s, step))
    ensures Regular(Taken(apply, s, step))
  {
    RegularVersion(s);
    var out := Taken(apply, s, step);
    if |out.trail| > |s.trail| {
      var n, k := |s.trail|, ReadBy(s, step.session) - s.base;
      assert 0 <= k <= n && forall j :: 0 <= j < n ==> out.trail[j].read == s.base + j;
      ReadsDiffer(out, k, n);
    }
  }

  /** If no two committed transactions share a read, the commits are serial at every point of the run. */
  lemma {:induction false} RunIsRegular<T, X, E>(apply: (T, X) -> Result<T, E>, s: Server<T>, steps: seq<Step<X>>,
                                                n: nat)
    requires Fresh(s) && n <= |steps| && NoSharedReads(After(apply, s, steps))
    ensures Regular(After(apply, s, steps[..n]))
    decreases n
  {
    if n > 0 {
      RunIsRegular(apply, s, steps, n - 1);
      TrailGrows(apply, s, steps, n);
      assert steps[..n][..n - 1] == steps[..n - 1];
      TakenIsRegular(apply, After(apply, s, steps[..n - 1]), steps[n - 1]);
    }
  }

  /** Between these two moments something was committed, and the version does not show it. */
  ghost predicate Hidden<T(!new), X, E>(apply: (T, X) -> Result<T, E>, s: Server<T>, steps: seq<Step<X>>, p: int,
                                        q: int) {
    && 0 <= p <= q <= |steps|
    && VersionOf(After(apply, s, steps[..p])) == VersionOf(After(apply, s, steps[..q]))
    && |After(apply, s, steps[..p]).trail| != |After(apply, s, steps[..q]).trail|
  }

  /** The moment right after commit k. */
  lemma {:induction false} MomentOf<T, X, E>(apply: (T, X) -> Result<T, E>, s: Server<T>, steps: seq<Step<X>>, k: nat)
    returns (p: nat)
    requires Fresh(s) && k < |After(apply, s, steps).trail|
    ensures p <= |steps| && |After(apply, s, steps[..p]).trail| == k + 1
    decreases |steps|
  {
    var n := |steps| - 1;
    if k < |After(apply, s, steps[..n]).trail| {
      p := MomentOf(apply, s, steps[..n], k);
      assert steps[..n][..p] == steps[..p];
    } else {
      p := |steps|;
      assert steps[..p] == steps;
    }
  }

  /** A version read twice tells that nothing was committed in between, at any two moments of a run, if and only if no
      two of the committed transactions read the same version. */
  lemma NothingHiddenExactlyWhen<T(!new), X, E>(apply: (T, X) -> Result<T, E>, s: Server<T>, steps: seq<Step<X>>)
    requires Fresh(s)
    ensures (forall p, q :: !Hidden(apply, s, steps, p, q)) <==> NoSharedReads(After(apply, s, steps))
  {
    var trail := After(apply, s, steps).trail;
    if NoSharedReads(After(apply, s, steps)) {
      forall p, q | Hidden(apply, s, steps, p, q) ensures false {
        RunIsRegular(apply, s, steps, p);
        RunIsRegular(apply, s, steps, q);
        TrailGrows(apply, s, steps, p);
        RegularVersion(After(apply, s, steps[..p]));
        RegularVersion(After(apply, s, steps[..q]));
        TrailGrows(apply, s, steps[..p], 0);
        TrailGrows(apply, s, steps[..q], 0);
      }
    } else {
      var i, j :| 0 <= i < j < |trail| && trail[i].read == trail[j].read;
      SharedReadHides(apply, s, steps, i, j);
    }
  }

  lemma SharedReadHides<T(!new), X, E>(apply: (T, X) -> Result<T, E>, s: Server<T>, steps: seq<Step<X>>, i: nat, j: nat)
    requires Fresh(s) && i < j < |After(apply, s, steps).trail|
    requires After(apply, s, steps).trail[i].read == After(apply, s, steps).trail[j].read
    ensures exists p, q :: Hidden(apply, s, steps, p, q)
  {
    hide After, Fresh;
    var p := MomentOf(apply, s, steps, i);
    var q := MomentOf(apply, s, steps, j);
    TrailGrows(apply, s, steps, p);
    TrailGrows(apply, s, steps, q);
    if q <= p { MomentsInOrder(apply, s, steps, q, p); }
    assert VersionOf(After(apply, s, steps[..p])) == After(apply, s, steps).trail[i].read + 1;
    assert VersionOf(After(apply, s, steps[..q])) == After(apply, s, steps).trail[j].read + 1;
    assert Hidden(apply, s, steps, p, q);
  }

  lemma MomentsInOrder<T, X, E>(apply: (T, X) -> Result<T, E>, s: Server<T>, steps: seq<Step<X>>, q: nat, p: nat)
    requires q <= p <= |steps|
    ensures |After(apply, s, steps[..q]).trail| <= |After(apply, s, steps[..p]).trail|
  {
    hide After;
    TrailGrows(apply, s, steps[..p], q);
    assert steps[..p][..q] == steps[..q];
  }

  lemma OneMoreStep<T, X, E>(apply: (T, X) -> Result<T, E>, s: Server<T>, steps: seq<Step<X>>, step: Step<X>)
    ensures After(apply, s, steps + [step]) == Taken(apply, After(apply, s, steps), step)
  {
    assert (steps + [step])[..|steps|] == steps;
  }

  lemma ThreeAndFourSteps<T, X, E>(apply: (T, X) -> Result<T, E>, s: Server<T>, a: Step<X>, b: Step<X>, c: Step<X>,
                                   d: Step<X>)
    ensures After(apply, s, [a, b, c]) == Taken(apply, Taken(apply, Taken(apply, s, a), b), c)
    ensures After(apply, s, [a, b, c, d]) == Taken(apply, Taken(apply, Taken(apply, Taken(apply, s, a), b), c), d)
  {
    hide Taken;
    assert [a][..0] == [] && [a, b][..1] == [a] && [a, b, c][..2] == [a, b] && [a, b, c, d][..3] == [a, b, c];
    assert After(apply, s, [a]) == Taken(apply, s, a);
    assert After(apply, s, [a, b]) == Taken(apply, After(apply, s, [a]), b);
    assert After(apply, s, [a, b, c]) == Taken(apply, After(apply, s, [a, b]), c);
  }

  /** Whenever two open transactions have read the same version and both commit, the second commit is hidden: the
      version between the commits is the version after them. */
  lemma TwoReadersHideACommit<T, X, E>(apply: (T, X) -> Result<T, E>, t0: T, v: nat, tx1: X, tx2: X)
    requires apply(t0, tx1).Success? && apply(apply(t0, tx1).value, tx2).Success?
    ensures var start := Server(t0, v, [], map[]);
            var between := After(apply, start, [BumpRead(1), BumpRead(2), Commit(1, tx1)]);
            var end := After(apply, start, [BumpRead(1), BumpRead(2), Commit(1, tx1), Commit(2, tx2)]);
            && VersionOf(between) == v + 1 && Success(TablesOf(between)) == apply(t0, tx1)
            && VersionOf(end) == v + 1 && Success(TablesOf(end)) == apply(TablesOf(between), tx2)
            && !NoSharedReads(end)
  {
    var start, t1 := Server(t0, v, [], map[]), apply(t0, tx1).value;
    hide After;
    ThreeAndFourSteps(apply, start, BumpRead(1), BumpRead(2), Commit(1, tx1), Commit(2, tx2));
    var s2 := Taken(apply, Taken(apply, start, BumpRead(1)), BumpRead(2));
    assert s2.trail == [] && 1 in s2.seen && s2.seen[1] == v && 2 in s2.seen && s2.seen[2] == v;
    var s3 := Taken(apply, s2, Commit(1, tx1));
    assert s3.trail == [Committed(v, t1)] && 2 in s3.seen && s3.seen[2] == v;
    var s4 := Taken(apply, s3, Commit(2, tx2));
    assert s4.trail[0].read == s4.trail[1].read;
  }

  // ---- a connection's view --------------------------------------------------------------------

  /** What was there at a version stays so as the server goes on. */
  lemma HadStays<T>(before: Server<T>, now: Server<T>, v: nat)
    requires before.base == now.base && before.origin == now.origin && before.trail <= now.trail && Had(before, v)
    ensures Had(now, v) && TablesAt(now, v) == TablesAt(before, v)
  {
  }

  /** `T` is what the tables hold, `X` a transaction, `E` why one is rolled back. The steps that other connections still
      take are `upcoming`; before each read some of them happen, as many as `pace` says. */
  class Database<T(!new), X(!new), E> {
    const apply: (T, X) -> Result<T, E>
    ghost const ok: T -> bool
    ghost const start: Server<T>
    ghost var done: seq<Step<X>>
    var server: Server<T>
    var upcoming: seq<Step<X>>
    var pace: seq<nat>

    /** The server is where its steps have led it, and no two transactions it ever commits share a read. */
    ghost predicate Valid()
      reads this
    {
      && Fresh(start) && server == After(apply, start, done)
      && NoSharedReads(After(apply, start, done + upcoming))
      && VersionOf(server) == server.base + |server.trail|
      && ok(server.origin) && (forall k :: 0 <= k < |server.trail| ==> ok(server.trail[k].tables))
      && (forall t, x :: ok(t) && apply(t, x).Success? ==> ok(apply(t, x).value))
    }

    /** The tables at the present version are the present ones. */
    lemma Present()
      requires Valid()
      ensures Had(server, VersionOf(server)) && TablesAt(server, VersionOf(server)) == TablesOf(server)
    {
      hide After, Fresh, NoSharedReads;
    }

    /** The tables were consistent at every version. */
    lemma Consistent(v: nat)
      requires Valid() && Had(server, v)
      ensures v <= VersionOf(server) && ok(TablesAt(server, v))
    {
      hide After, Fresh, NoSharedReads;
      if v > server.base { assert ok(server.trail[v - server.base - 1].tables); }
    }

    /** Time moves on: the commits so far stay, and each new one is one of the steps that were to come. */
    twostate predicate Later()
      reads this
    {
      && server.base == old(server.base) && server.origin == old(server.origin)
      && old(server.trail) <= server.trail
      && |upcoming| <= old(|upcoming|)
      && (server.trail != old(server.trail) ==> |upcoming| < old(|upcoming|))
    }

    constructor (apply: (T, X) -> Result<T, E>, ghost ok: T -> bool, tables: T, version: nat, upcoming: seq<Step<X>>,
                 pace: seq<nat>)
      requires ok(tables) && forall t, x :: ok(t) && apply(t, x).Success? ==> ok(apply(t, x).value)
      requires NoSharedReads(After(apply, Server(tables, version, [], map[]), upcoming))
      ensures Valid() && this.ok == ok && this.apply == apply && TablesOf(server) == tables
              && VersionOf(server) == version
    {
      var server := Server(tables, version, [], map[]);
      this.apply, this.ok, this.start, this.done := apply, ok, server, [];
      this.server, this.upcoming, this.pace := server, upcoming, pace;
      assert [] + upcoming == upcoming;
    }

    /** The next step of another connection. Because reads are not shared, a commit raises the version by exactly one,
        and everything else leaves tables and version alone. */
    method TakeStep() returns (committed: bool)
      requires Valid() && upcoming != []
      modifies this`server, this`upcoming, this`done
      ensures Valid() && Later() && upcoming == old(upcoming)[1..]
      ensures committed <==> old(upcoming)[0].Commit? && apply(TablesOf(old(server)), old(upcoming)[0].tx).Success?
      ensures if committed
              then && VersionOf(server) == VersionOf(old(server)) + 1
                   && Success(TablesOf(server)) == apply(TablesOf(old(server)), old(upcoming)[0].tx)
              else VersionOf(server) == VersionOf(old(server)) && TablesOf(server) == TablesOf(old(server))
    {
      hide After, NoSharedReads, Fresh, Taken;
      var step := upcoming[0];
      NextMoment(apply, start, done, upcoming);
      StepShape(apply, server, step);
      committed := step.Commit? && apply(TablesOf(server), step.tx).Success?;
      server := Taken(apply, server, step);
      upcoming := upcoming[1..];
      done := done + [step];
    }

    /** Other connections go on before the next read. */
    method Interfere()
      requires Valid()
      modifies this
      ensures Valid() && Later()
    {
      hide After, NoSharedReads, Fresh, VersionOf, TablesOf;
      var n := if pace == [] then 0 else pace[0];
      pace := if pace == [] then [] else pace[1..];
      while n > 0 && upcoming != []
        invariant Valid() && Later()
        decreases n
      {
        var committed := TakeStep();
        n := n - 1;
      }
    }

    /** `projects_version`, `event_sinks_version`. */
    method ReadVersion() returns (v: nat)
      requires Valid()
      modifies this
      ensures Valid() && Later() && v == VersionOf(server)
    {
      Interfere();
      v := VersionOf(server);
    }

    /** One statement that reads the tables. */
    method Read() returns (t: T)
      requires Valid()
      modifies this
      ensures Valid() && Later() && t == TablesOf(server)
    {
      Interfere();
      t := TablesOf(server);
    }
  }

  lemma NextMoment<T, X, E>(apply: (T, X) -> Result<T, E>, start: Server<T>, done: seq<Step<X>>, upcoming: seq<Step<X>>)
    requires Fresh(start) && upcoming != [] && NoSharedReads(After(apply, start, done + upcoming))
    ensures var next := done + [upcoming[0]];
            && next + upcoming[1..] == done + upcoming
            && After(apply, start, next) == Taken(apply, After(apply, start, done), upcoming[0])
            && VersionOf(After(apply, start, next)) == start.base + |After(apply, start, next).trail|
            && After(apply, start, next).base == start.base && After(apply, start, done).base == start.base
  {
    var all, next := done + upcoming, done + [upcoming[0]];
    assert all[..|next|] == next && next[..|done|] == done && next + upcoming[1..] == all;
    RunIsRegular(apply, start, all, |next|);
    RegularVersion(After(apply, start, next));
    TrailGrows(apply, start, next, 0);
    TrailGrows(apply, start, done, 0);
  }

  lemma StepShape<T, X, E>(apply: (T, X) -> Result<T, E>, s: Server<T>, step: Step<X>)
    ensures var out := Taken(apply, s, step);
            if step.Commit? && apply(TablesOf(s), step.tx).Success?
            then
              && |out.trail| == |s.trail| + 1 && s.trail <= out.trail
              && Success(TablesOf(out)) == apply(TablesOf(s), step.tx) && TablesOf(out) == out.trail[|s.trail|].tables
            else out.trail == s.trail
    ensures Taken(apply, s, step).origin == s.origin && Taken(apply, s, step).base == s.base
  {
  }
}
