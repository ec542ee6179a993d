/** The project registry: transactional mutations and version-checked snapshots
    (src/repositories/projects.rs, src/services/project.rs). */
module ProjectRegistry {
  import opened Wrappers
  import opened VersionedTables

  datatype Project = Project(id: nat, token: string, key: string, enabled: bool, name: string)

  type Rows = seq<Project>

  /** The rows in id order, and the id the next one gets. */
  datatype Table = Table(rows: Rows, nextId: nat)

  datatype Tx =
    | Create(token: string, key: string, enabled: bool, name: string)
    | Update(id: nat, newToken: Option<string>, newKey: Option<string>, newEnabled: Option<bool>,
             newName: Option<string>)
    | Delete(id: nat)

  datatype TxError = NotFound | InvalidToken | DuplicateToken | DuplicateKey

  // ---- the repository -------------------------------------------------------------------------

  ghost predicate Increasing(rows: Rows) {
    forall i, j :: 0 <= i < j < |rows| ==> rows[i].id < rows[j].id
  }

  /** The unique constraints of the table. */
  ghost predicate Unique(rows: Rows) {
    forall i, j :: 0 <= i < j < |rows| ==> rows[i].token != rows[j].token && rows[i].key != rows[j].key
  }

  ghost predicate TableOk(t: Table) {
    Increasing(t.rows) && Unique(t.rows) && forall i :: 0 <= i < |t.rows| ==> t.rows[i].id < t.nextId
  }

  function IndexOf(rows: Rows, id: nat): (i: Option<nat>)
    ensures i.Some? ==> i.value < |rows| && rows[i.value].id == id
    ensures i.None? ==> forall k :: 0 <= k < |rows| ==> rows[k].id != id
  {
    if rows == [] then None
    else if rows[|rows| - 1].id == id then Some(|rows| - 1)
    else IndexOf(rows[..|rows| - 1], id)
  }

  function Changed(p: Project, tx: Tx): Project
    requires tx.Update?
  {
    Project(p.id, Or(tx.newToken, p.token), Or(tx.newKey, p.key), Or(tx.newEnabled, p.enabled), Or(tx.newName, p.name))
  }

  predicate TokenTaken(rows: Rows, p: Project) {
    exists i :: 0 <= i < |rows| && rows[i].id != p.id && rows[i].token == p.token
  }

  predicate KeyTaken(rows: Rows, p: Project) {
    exists i :: 0 <= i < |rows| && rows[i].id != p.id && rows[i].key == p.key
  }

  /** The table after a transaction, or why it is rolled back. */
  function Outcome(t: Table, tx: Tx): Result<Table, TxError> {
    match tx
    case Create(token, key, enabled, name) =>
      var p := Project(t.nextId, token, key, enabled, name);
      if token == "" then Failure(InvalidToken)
      else if TokenTaken(t.rows, p) then Failure(DuplicateToken)
      else if KeyTaken(t.rows, p) then Failure(DuplicateKey)
      else Success(Table(t.rows + [p], t.nextId + 1))
    case Update(id, token, _, _, _) =>
      var i := IndexOf(t.rows, id);
      if i.None? then Failure(NotFound)
      else if token == Some("") then Failure(InvalidToken)
      else
        var p := Changed(t.rows[i.value], tx);
        if TokenTaken(t.rows, p) then Failure(DuplicateToken)
        else if KeyTaken(t.rows, p) then Failure(DuplicateKey)
        else Success(t.(rows := t.rows[i.value := p]))
    case Delete(id) =>
      var i := IndexOf(t.rows, id);
      if i.None? then Failure(NotFound) else Success(t.(rows := t.rows[..i.value] + t.rows[i.value + 1..]))
  }

  lemma DeleteKeepsTable(t: Table, i: nat)
    requires TableOk(t) && i < |t.rows|
    ensures TableOk(t.(rows := t.rows[..i] + t.rows[i + 1..]))
  {
    var out := t.rows[..i] + t.rows[i + 1..];
    assert forall k :: 0 <= k < |out| ==> out[k] == if k < i then t.rows[k] else t.rows[k + 1];
  }

  /** Writing a row at its place, or at the end, where no other row has its token or key. */
  lemma PutKeepsTable(t: Table, i: nat, p: Project)
    requires TableOk(t) && i <= |t.rows|
    requires p.id == if i < |t.rows| then t.rows[i].id else t.nextId
    requires !TokenTaken(t.rows, p) && !KeyTaken(t.rows, p)
    ensures i < |t.rows| ==> TableOk(t.(rows := t.rows[i := p]))
    ensures i == |t.rows| ==> TableOk(Table(t.rows + [p], t.nextId + 1))
  {
    assert forall k :: 0 <= k < |t.rows| && k != i ==> t.rows[k].id != p.id;
    assert forall k :: 0 <= k < |t.rows| && k != i ==> t.rows[k].token != p.token && t.rows[k].key != p.key;
  }

  /** Transactions keep ids, tokens and keys unique. */
  lemma OutcomeKeepsTable(t: Table, tx: Tx)
    requires TableOk(t) && Outcome(t, tx).Success?
    ensures TableOk(Outcome(t, tx).value)
  {
    hide TableOk, TokenTaken, KeyTaken;
    match tx
    case Create(token, key, enabled, name) =>
      PutKeepsTable(t, |t.rows|, Project(t.nextId, token, key, enabled, name));
    case Update(id, _, _, _, _) =>
      var i := IndexOf(t.rows, id).value;
      PutKeepsTable(t, i, Changed(t.rows[i], tx));
    case Delete(id) =>
      DeleteKeepsTable(t, IndexOf(t.rows, id).value);
  }

  /** Rows of other ids are neither added, changed nor removed. */
  ghost predicate OthersKept(before: Rows, after: Rows, id: nat) {
    forall p: Project :: p.id != id ==> (p in before <==> p in after)
  }

  ghost predicate HasId(rows: Rows, id: nat) {
    exists p :: p in rows && p.id == id
  }

  lemma RowOfId(rows: Rows, i: nat)
    requires Increasing(rows) && i < |rows|
    ensures forall p :: p in rows && p.id == rows[i].id ==> p == rows[i]
  {
  }

  /** The created row has the fields given and a new id. */
  lemma CreateAddsTheRow(t: Table, tx: Tx)
    requires TableOk(t) && tx.Create? && Outcome(t, tx).Success?
    ensures var out := Outcome(t, tx).value;
            && !HasId(t.rows, t.nextId) && OthersKept(t.rows, out.rows, t.nextId)
            && forall p :: p in out.rows && p.id == t.nextId <==>
                 p == Project(t.nextId, tx.token, tx.key, tx.enabled, tx.name)
  {
    hide TokenTaken, KeyTaken;
  }

  /** The updated row has each value that was asked for and keeps the others; all other rows are as before. */
  lemma UpdateChangesTheRow(t: Table, tx: Tx, p: Project)
    requires TableOk(t) && tx.Update? && Outcome(t, tx).Success? && p in t.rows && p.id == tx.id
    ensures var out := Outcome(t, tx).value;
            && OthersKept(t.rows, out.rows, tx.id) && HasId(out.rows, tx.id)
            && forall q :: q in out.rows && q.id == tx.id ==>
                 && q.token == (match tx.newToken case Some(v) => v case None => p.token)
                 && q.key == (match tx.newKey case Some(v) => v case None => p.key)
                 && q.enabled == (match tx.newEnabled case Some(v) => v case None => p.enabled)
                 && q.name == (match tx.newName case Some(v) => v case None => p.name)
  {
    hide TokenTaken, KeyTaken;
    OutcomeKeepsTable(t, tx);
    var i, out := IndexOf(t.rows, tx.id).value, Outcome(t, tx).value.rows;
    RowOfId(t.rows, i);
    RowOfId(out, i);
    assert |out| == |t.rows| && forall k :: 0 <= k < |out| && k != i ==> out[k] == t.rows[k];
    assert out[i] in out && out[i].id == tx.id;
    forall q: Project | q.id != tx.id ensures q in t.rows <==> q in out {
      if q in t.rows {
        var k :| 0 <= k < |t.rows| && t.rows[k] == q;
        assert out[k] == q;
      }
      if q in out {
        var k :| 0 <= k < |out| && out[k] == q;
        assert t.rows[k] == q;
      }
    }
  }

  lemma DeleteRemovesTheRow(t: Table, tx: Tx)
    requires TableOk(t) && tx.Delete? && Outcome(t, tx).Success?
    ensures var out := Outcome(t, tx).value; OthersKept(t.rows, out.rows, tx.id) && !HasId(out.rows, tx.id)
  {
    var i, out := IndexOf(t.rows, tx.id).value, Outcome(t, tx).value.rows;
    assert t.rows == t.rows[..i] + [t.rows[i]] + t.rows[i + 1..];
    assert forall k :: 0 <= k < |out| ==> out[k] == if k < i then t.rows[k] else t.rows[k + 1];
  }

  /** A transaction succeeds exactly if its row is there, its token is not empty, and no other row has its token or its
      key. */
  lemma SucceedsExactlyWhen(t: Table, tx: Tx)
    requires TableOk(t)
    ensures Outcome(t, tx).Success? <==>
              match tx
              case Create(token, key, _, _) =>
                token != "" && forall p :: p in t.rows ==> p.token != token && p.key != key
              case Update(id, token, key, _, _) =>
                && HasId(t.rows, id) && token != Some("")
                && forall p :: p in t.rows && p.id != id ==> Some(p.token) != token && Some(p.key) != key
              case Delete(id) => HasId(t.rows, id)
  {
    match tx
    case Create(token, key, enabled, name) =>
      assert forall i :: 0 <= i < |t.rows| ==> t.rows[i] in t.rows;
    case Update(id, token, key, _, _) =>
      var i := IndexOf(t.rows, id);
      if i.Some? {
        assert t.rows[i.value] in t.rows;
        RowOfId(t.rows, i.value);
        TakenByOthers(t.rows, Changed(t.rows[i.value], tx));
        assert forall k :: 0 <= k < |t.rows| && k != i.value ==>
            t.rows[k].token != t.rows[i.value].token && t.rows[k].key != t.rows[i.value].key;
      }
    case Delete(id) =>
      var i := IndexOf(t.rows, id);
      if i.Some? { assert t.rows[i.value] in t.rows; }
  }

  lemma TakenByOthers(rows: Rows, p: Project)
    ensures TokenTaken(rows, p) <==> exists q :: q in rows && q.id != p.id && q.token == p.token
    ensures KeyTaken(rows, p) <==> exists q :: q in rows && q.id != p.id && q.key == p.key
  {
    assert forall i :: 0 <= i < |rows| ==> rows[i] in rows;
  }

  /** `list_enabled_projects`. */
  function Enabled(rows: Rows): seq<Project> {
    if rows == [] then []
    else Enabled(rows[..|rows| - 1]) + if rows[|rows| - 1].enabled then [rows[|rows| - 1]] else []
  }

  /** Collecting into a hash map: a later entry replaces an earlier one with the same key. */
  function ByToken(projects: seq<Project>): map<string, Project> {
    if projects == [] then map[]
    else ByToken(projects[..|projects| - 1])[projects[|projects| - 1].token := projects[|projects| - 1]]
  }

  function ByKey(projects: seq<Project>): map<string, Project> {
    if projects == [] then map[]
    else ByKey(projects[..|projects| - 1])[projects[|projects| - 1].key := projects[|projects| - 1]]
  }

  lemma {:induction false} EnabledMembers(rows: Rows)
    ensures forall p :: p in Enabled(rows) <==> p in rows && p.enabled
  {
    if rows != [] {
      EnabledMembers(rows[..|rows| - 1]);
      assert rows == rows[..|rows| - 1] + [rows[|rows| - 1]];
    }
  }

  lemma {:induction false} ByKeyMembers(projects: seq<Project>)
    ensures forall k :: k in ByKey(projects) ==> ByKey(projects)[k] in projects && ByKey(projects)[k].key == k
    ensures forall p :: p in projects ==> p.key in ByKey(projects)
  {
    if projects != [] {
      ByKeyMembers(projects[..|projects| - 1]);
      assert projects == projects[..|projects| - 1] + [projects[|projects| - 1]];
    }
  }

  ghost predicate DistinctTokens(projects: seq<Project>) {
    forall p, q :: p in projects && q in projects && p.token == q.token ==> p == q
  }

  lemma {:induction false} ByTokenKeepsAll(projects: seq<Project>)
    requires DistinctTokens(projects)
    ensures forall p :: p in projects ==> p.token in ByToken(projects) && ByToken(projects)[p.token] == p
  {
    if projects != [] {
      var front, last := projects[..|projects| - 1], projects[|projects| - 1];
      assert projects == front + [last];
      ByTokenKeepsAll(front);
    }
  }

  lemma {:induction false} ByTokenMembers(projects: seq<Project>)
    ensures forall token :: token in ByToken(projects) ==>
              ByToken(projects)[token] in projects && ByToken(projects)[token].token == token
  {
    if projects != [] {
      ByTokenMembers(projects[..|projects| - 1]);
      assert projects == projects[..|projects| - 1] + [projects[|projects| - 1]];
    }
  }

  /** Once a project is disabled or deleted, a snapshot of the table finds it neither by its key nor by its token nor by
      its id. */
  lemma SwitchedOffIsNotFound(t: Table, tx: Tx, p: Project)
    requires TableOk(t) && Outcome(t, tx).Success? && p in t.rows
    requires tx.Delete? || (tx.Update? && tx.newEnabled == Some(false))
    requires p.id == tx.id
    ensures var shown := Enabled(Outcome(t, tx).value.rows);
            && p.key !in ByKey(shown) && p.token !in ByToken(shown)
            && forall token :: token in ByToken(shown) ==> ByToken(shown)[token].id != p.id
  {
    hide Outcome, Enabled, ByKey, ByToken;
    var out := Outcome(t, tx).value.rows;
    if tx.Delete? { DeleteRemovesTheRow(t, tx); } else { UpdateChangesTheRow(t, tx, p); }
    EnabledMembers(out);
    ByKeyMembers(Enabled(out));
    ByTokenMembers(Enabled(out));
    forall q | q in Enabled(out) ensures q.id != p.id && q.key != p.key && q.token != p.token {
      assert q in t.rows;
    }
  }

  /** In one snapshot, a project found by key is an enabled row with that key, and it is also found by its id. */
  lemma FoundByKeyIsFoundById(t: Table, key: string)
    requires TableOk(t) && key in ByKey(Enabled(t.rows))
    ensures var p := ByKey(Enabled(t.rows))[key];
            && p in t.rows && p.enabled && p.key == key
            && exists token :: token in ByToken(Enabled(t.rows)) && ByToken(Enabled(t.rows))[token].id == p.id
  {
    var rows := t.rows;
    EnabledMembers(rows);
    ByKeyMembers(Enabled(rows));
    forall p, q | p in Enabled(rows) && q in Enabled(rows) && p.token == q.token ensures p == q {
      assert p in rows && q in rows;
      var i :| 0 <= i < |rows| && rows[i] == p;
      var j :| 0 <= j < |rows| && rows[j] == q;
      assert i == j;
    }
    ByTokenKeepsAll(Enabled(rows));
    var p := ByKey(Enabled(rows))[key];
    assert p.token in ByToken(Enabled(rows)) && ByToken(Enabled(rows))[p.token] == p;
  }

  /** The map by token holds an id exactly if an enabled row has it. */
  lemma IdsByToken(t: Table, id: nat)
    requires TableOk(t)
    ensures (exists token :: token in ByToken(Enabled(t.rows)) && ByToken(Enabled(t.rows))[token].id == id)
       <==> exists p :: p in t.rows && p.enabled && p.id == id
  {
    hide Enabled, ByToken;
    var shown := Enabled(t.rows);
    EnabledMembers(t.rows);
    ByTokenMembers(shown);
    forall p, q | p in shown && q in shown && p.token == q.token ensures p == q { SameTokenSameRow(t, p, q); }
    ByTokenKeepsAll(shown);
    forall p | p in t.rows && p.enabled && p.id == id
      ensures exists token :: token in ByToken(shown) && ByToken(shown)[token].id == id
    {
      assert p.token in ByToken(shown);
    }
  }

  lemma SameTokenSameRow(t: Table, p: Project, q: Project)
    requires TableOk(t) && p in t.rows && q in t.rows && p.token == q.token
    ensures p == q
  {
    var i :| 0 <= i < |t.rows| && t.rows[i] == p;
    var j :| 0 <= j < |t.rows| && t.rows[j] == q;
    assert i == j;
  }

  // ---- the registry ---------------------------------------------------------------------------

  type ProjectDatabase = Database<Table, Tx, TxError>

  ghost predicate Usable(db: ProjectDatabase)
    reads db
  {
    db.Valid() && forall t :: db.ok(t) ==> TableOk(t)
  }

  /** A database over a consistent table stays consistent whatever other connections commit. */
  method Connect(t: Table, version: nat, upcoming: seq<Step<Tx>>, pace: seq<nat>) returns (db: ProjectDatabase)
    requires TableOk(t) && NoSharedReads(After(Outcome, Server(t, version, [], map[]), upcoming))
    ensures fresh(db) && Usable(db) && TablesOf(db.server) == t && VersionOf(db.server) == version
            && db.apply == Outcome
  {
    forall t, tx | TableOk(t) && Outcome(t, tx).Success? ensures TableOk(Outcome(t, tx).value) {
      OutcomeKeepsTable(t, tx);
    }
    db := new Database(Outcome, TableOk, t, version, upcoming, pace);
  }

  /** These maps are the enabled rows at exactly this version. */
  ghost predicate IsSnapshot(db: ProjectDatabase, byToken: map<string, Project>, byKey: map<string, Project>,
                             version: nat)
    reads db
  {
    && Had(db.server, version)
    && byToken == ByToken(Enabled(TablesAt(db.server, version).rows))
    && byKey == ByKey(Enabled(TablesAt(db.server, version).rows))
  }

  /** Why reads must not be shared: two transactions that both read version 1 commit version 2. A refresh between the
      commits records version 2 without the second project, and from then on no refresh looks again. */
  lemma LostUpdateIsHidden()
    ensures var first, second := Create("t1", "k1", true, "one"), Create("t2", "k2", true, "two");
            var start := Server(Table([], 1), 1, [], map[]);
            var between := After(Outcome, start, [BumpRead(1), BumpRead(2), Commit(1, first)]);
            var end := After(Outcome, start, [BumpRead(1), BumpRead(2), Commit(1, first), Commit(2, second)]);
            && VersionOf(between) == VersionOf(end) == 2
            && TablesOf(between).rows == [Project(1, "t1", "k1", true, "one")]
            && TablesOf(end).rows == [Project(1, "t1", "k1", true, "one"), Project(2, "t2", "k2", true, "two")]
  {
    var first, second := Create("t1", "k1", true, "one"), Create("t2", "k2", true, "two");
    var one, two := Project(1, "t1", "k1", true, "one"), Project(2, "t2", "k2", true, "two");
    assert [] + [one] == [one] && [one] + [two] == [one, two];
    assert Outcome(Table([], 1), first) == Success(Table([one], 2));
    assert "t1"[1] != "t2"[1] && "k1"[1] != "k2"[1];
    assert Outcome(Table([one], 2), second) == Success(Table([one, two], 3));
    hide After, Outcome;
    TwoReadersHideACommit(Outcome, Table([], 1), 1, first, second);
  }

  /** `load_snapshot`: read version, rows, version, and start over while a writer got in between. It ends because the
      interfering transactions do. */
  method LoadSnapshot(db: ProjectDatabase) returns (byToken: map<string, Project>, byKey: map<string, Project>,
                                                    version: nat)
    requires Usable(db)
    modifies db
    ensures Usable(db) && db.Later()
    ensures IsSnapshot(db, byToken, byKey, version) && old(VersionOf(db.server)) <= version <= VersionOf(db.server)
  {
    hide TableOk, Outcome, NoSharedReads, After, Fresh, Enabled, ByToken, ByKey, Had, TablesAt;
    while true
      invariant db.Valid() && db.Later()
      decreases |db.upcoming|
    {
      var before := db.ReadVersion();
      var table := db.Read();
      var after := db.ReadVersion();
      if before == after {
        db.Present();
        byToken, byKey := CollectMaps(Enabled(table.rows));
        version := after;
        return;
      }
    }
  }

  method CollectMaps(projects: seq<Project>) returns (byToken: map<string, Project>, byKey: map<string, Project>)
    ensures byToken == ByToken(projects) && byKey == ByKey(projects)
  {
    byToken, byKey := map[], map[];
    assert projects[..0] == [];
    for n := 0 to |projects|
      invariant byToken == ByToken(projects[..n]) && byKey == ByKey(projects[..n])
    {
      assert projects[..n + 1][..n] == projects[..n];
      byToken := byToken[projects[n].token := projects[n]];
      byKey := byKey[projects[n].key := projects[n]];
    }
    assert projects[..|projects|] == projects;
  }

  class Registry {
    const db: ProjectDatabase
    var byToken: map<string, Project>
    var byKey: map<string, Project>
    var version: nat

    /** The installed maps are the enabled rows at exactly the recorded version. */
    ghost predicate Valid()
      reads this, db
    {
      Usable(db) && IsSnapshot(db, byToken, byKey, version)
    }

    constructor (db: ProjectDatabase)
      requires Usable(db)
      modifies db
      ensures Valid() && this.db == db && old(VersionOf(db.server)) <= version
    {
      var token, key, v := LoadSnapshot(db);
      this.db, byToken, byKey, version := db, token, key, v;
    }

    /** `apply_snapshot_if_newer`: an older snapshot never replaces a newer one. */
    method ApplySnapshotIfNewer(token: map<string, Project>, key: map<string, Project>, v: nat) returns (applied: bool)
      requires Valid() && IsSnapshot(db, token, key, v)
      modifies this
      ensures Valid() && applied == (v > old(version)) && version == if applied then v else old(version)
    {
      if v <= version { return false; }
      byToken, byKey, version := token, key, v;
      return true;
    }

    /** `refresh_if_needed`: afterwards the snapshot is at least as new as the database was at the call. */
    method RefreshIfNeeded() returns (refreshed: bool)
      requires Valid()
      modifies this, db
      ensures Valid() && db.Later()
      ensures old(VersionOf(db.server)) <= version <= VersionOf(db.server)
      ensures refreshed ==> old(version) < version
      ensures !refreshed ==> version == old(version) && byToken == old(byToken) && byKey == old(byKey)
    {
      hide TableOk, Outcome, NoSharedReads, After, Fresh, Enabled, ByToken, ByKey;
      var latest := db.ReadVersion();
      if latest == version { return false; }
      var token, key, v := LoadSnapshot(db);
      refreshed := ApplySnapshotIfNewer(token, key, v);
    }

    /** `project_by_key`, for a key that is already trimmed: an enabled row, which `contains_project_id` then finds. */
    method ProjectByKey(key: string) returns (p: Option<Project>)
      requires Valid()
      ensures p.Some? <==> exists q :: q in TablesAt(db.server, version).rows && q.enabled && q.key == key
      ensures p.Some? ==>
                && p.value in TablesAt(db.server, version).rows && p.value.enabled && p.value.key == key
                && exists token :: token in byToken && byToken[token].id == p.value.id
    {
      hide NoSharedReads, After, Fresh;
      db.Consistent(version);
      p := if key in byKey then Some(byKey[key]) else None;
      EnabledMembers(TablesAt(db.server, version).rows);
      ByKeyMembers(Enabled(TablesAt(db.server, version).rows));
      if key in byKey { FoundByKeyIsFoundById(TablesAt(db.server, version), key); }
    }

    /** `contains_project_id`. */
    method ContainsProjectId(id: nat) returns (found: bool)
      requires Valid()
      ensures found <==> exists token :: token in byToken && byToken[token].id == id
      ensures found <==> exists p :: p in TablesAt(db.server, version).rows && p.enabled && p.id == id
    {
      hide NoSharedReads, After, Fresh, Enabled, ByToken, ByKey;
      db.Consistent(version);
      IdsByToken(TablesAt(db.server, version), id);
      var left := byToken.Keys;
      while left != {}
        invariant left <= byToken.Keys
        invariant forall token :: token in byToken && byToken[token].id == id ==> token in left
        decreases left
      {
        var token :| token in left;
        if byToken[token].id == id {
          assert token in ByToken(Enabled(TablesAt(db.server, version).rows));
          return true;
        }
        left := left - {token};
      }
      return false;
    }
  }
}
