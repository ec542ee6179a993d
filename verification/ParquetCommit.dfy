/** Idempotent commits of Parquet batches (src/sinks/parquet.rs) and what replay may rely on. A file is modelled by
    the rows it holds. */
module ParquetCommit {
  import opened Bytes
  import opened SegmentFile
  import opened ReplayPlan
  import opened SinkBatching
  import opened ParquetNames
  import opened Wrappers
  import opened Replay
  import opened ReplayExact
  import opened ReplayTheorems

  type Files = map<Name, Batch>

  /** The file is written unless there is one of that name already. */
  function Put(files: Files, name: Name, rows: Batch): Files {
    if name in files then files else files[name := rows]
  }

  /** What readers of the directory see: everything but temporary files. */
  ghost predicate SameCommitted(a: Files, b: Files) {
    forall m :: (FileName(m) in a <==> FileName(m) in b)
             && (FileName(m) in a && FileName(m) in b ==> a[FileName(m)] == b[FileName(m)])
  }

  /** What a call of `write_events` leaves: the batch's file in place, or, after a failure, possibly nothing new. */
  ghost predicate WriteResult(before: Files, after: Files, m: Metadata, batch: Batch, ok: bool) {
    SameCommitted(after, Put(before, FileName(m), batch)) || (!ok && SameCommitted(after, before))
  }

  class ParquetSink {
    const canRename: bool
    const canWriteIfAbsent: bool
    const encodes: Batch -> bool      // false if a required column is missing or has the wrong type
    var files: Files

    constructor (canRename: bool, canWriteIfAbsent: bool, encodes: Batch -> bool, files: Files)
      ensures this.canRename == canRename && this.canWriteIfAbsent == canWriteIfAbsent
      ensures this.encodes == encodes && this.files == files
    {
      this.canRename, this.canWriteIfAbsent, this.encodes, this.files := canRename, canWriteIfAbsent, encodes, files;
    }

    /** One call that stores a file; `fault` says how it ends. */
    method Store(name: Name, rows: Batch, fault: Outcome) returns (ok: bool)
      modifies this`files
      ensures ok == (fault == Done)
      ensures files == if fault == Refused then old(files) else old(files)[name := rows]
    {
      if fault != Refused { files := files[name := rows]; }
      return fault == Done;
    }

    method Delete(name: Name, fault: Outcome)
      modifies this`files
      ensures files == if fault == Refused then old(files) else old(files) - {name}
    {
      if fault != Refused { files := files - {name}; }
    }

    /** `write_final_if_absent`. */
    method WriteFinalIfAbsent(name: Name, rows: Batch, stat: Outcome, write: Outcome) returns (ok: bool)
      modifies this`files
      ensures ok ==> files == Put(old(files), name, rows)
      ensures !ok ==> files == old(files) || files == Put(old(files), name, rows)
    {
      if canWriteIfAbsent {
        if name in files { return write == Done; }
        ok := Store(name, rows, write);
        return;
      }
      if stat != Done { return false; }
      if name in files { return true; }
      ok := Store(name, rows, write);
    }

    /** `write_events`: a success leaves the batch's file in place, a failure leaves it in place or nothing, and no
        committed file ever changes. `faults` says how the k-th storage call ends. */
    method WriteEvents(batch: Batch, m: Metadata, faults: nat -> Outcome) returns (ok: bool)
      modifies this`files
      ensures WriteResult(old(files), files, m, batch, ok)
      ensures !encodes(batch) ==> !ok && files == old(files)
    {
      hide FileName, TempName;
      if !encodes(batch) { return false; }
      var final := FileName(m);
      var temp := TempName(final);
      forall n: Metadata ensures temp != FileName(n) { TempIsNoFile(final, n); }
      if faults(0) != Done { return false; }
      if !canRename {
        ok := WriteFinalIfAbsent(final, batch, faults(1), faults(2));
        return;
      }
      if faults(1) != Done { return false; }
      if final in files { return true; }
      var written := Store(temp, batch, faults(2));
      if !written {
        Delete(temp, faults(4));
        return false;
      }
      if faults(3) != Refused { files := (files - {temp})[final := files[temp]]; }
      if faults(3) != Done {
        Delete(temp, faults(4));
        return false;
      }
      return true;
    }
  }

  // ---- one send -------------------------------------------------------------------------------

  function First(b: Batch): nat
    requires b != []
  {
    b[0].lsn
  }

  function Last(b: Batch): nat
    requires b != []
  {
    b[|b| - 1].lsn
  }

  function NameOf(b: Batch, node: seq<byte>): Name
    requires b != []
  {
    FileName(MetadataOf(b, node))
  }

  ghost predicate NonEmpty(batches: seq<Batch>) {
    forall i :: 0 <= i < |batches| ==> batches[i] != []
  }

  /** The store after these batches were written one after the other. */
  function Stored(files: Files, batches: seq<Batch>, node: seq<byte>): Files
    requires NonEmpty(batches)
  {
    if batches == [] then files
    else
      var last := batches[|batches| - 1];
      Put(Stored(files, batches[..|batches| - 1], node), NameOf(last, node), last)
  }

  lemma {:induction false} RunsAreApart(batches: seq<Batch>, i: nat, j: nat)
    requires i < j < |batches|
    ensures Before(batches, i + 1) <= Before(batches, j)
  {
    if i + 1 < j {
      RunsAreApart(batches, i, j - 1);
      BatchIsRun(batches, j - 1);
    }
  }

  /** Batches of one send follow each other in the log: each ends no later than the next begins. */
  lemma LsnsGrow(batches: seq<Batch>, i: nat, j: nat)
    requires NonEmpty(batches) && i <= j < |batches| && InOrder(Concat(batches))
    ensures First(batches[i]) <= Last(batches[i])
    ensures i < j ==> Last(batches[i]) <= First(batches[j])
    ensures i < j && OnePerRecord(Concat(batches)) ==> Last(batches[i]) < First(batches[j])
  {
    hide Before, Concat;
    var events := Concat(batches);
    BatchIsRun(batches, i);
    BatchIsRun(batches, j);
    var a, b, c := Before(batches, i), Before(batches, i + 1), Before(batches, j);
    assert batches[i][0] == events[a] && batches[i][|batches[i]| - 1] == events[b - 1] && batches[j][0] == events[c];
    if i < j { RunsAreApart(batches, i, j); }
  }

  /** Two batches of one send share a name exactly if they and all between them hold events of one record. */
  lemma NamesClashExactlyWithinARecord(batches: seq<Batch>, node: seq<byte>, i: nat, j: nat)
    requires NonEmpty(batches) && i < j < |batches| && InOrder(Concat(batches))
    ensures NameOf(batches[i], node) == NameOf(batches[j], node) <==> First(batches[i]) == Last(batches[j])
  {
    NamesAreInjective(MetadataOf(batches[i], node), MetadataOf(batches[j], node));
    LsnsGrow(batches, i, j);
    LsnsGrow(batches, j, j);
  }

  lemma {:induction false} StoredNames(files: Files, batches: seq<Batch>, node: seq<byte>, name: Name)
    requires NonEmpty(batches)
    ensures name in Stored(files, batches, node)
       <==> name in files || exists i :: 0 <= i < |batches| && NameOf(batches[i], node) == name
    ensures name in files ==> Stored(files, batches, node)[name] == files[name]
    decreases |batches|
  {
    hide NameOf;
    if batches != [] {
      var n := |batches| - 1;
      var front := batches[..n];
      StoredNames(files, front, node, name);
      forall i | 0 <= i < n ensures NameOf(batches[i], node) == NameOf(front[i], node) {
        assert batches[i] == front[i];
      }
    }
  }

  /** In one send, into any directory, batch j finds its name taken, and so is dropped although the sink reports
      success, exactly if the file was there before the send, or the batch and the one before it hold events of one
      record only. */
  lemma DroppedExactlyWhen(files: Files, batches: seq<Batch>, node: seq<byte>, j: nat)
    requires NonEmpty(batches) && j < |batches| && InOrder(Concat(batches))
    ensures NameOf(batches[j], node) in Stored(files, batches[..j], node)
       <==> NameOf(batches[j], node) in files || (j > 0 && First(batches[j - 1]) == Last(batches[j]))
  {
    hide FileName, Stored;
    var name := NameOf(batches[j], node);
    StoredNames(files, batches[..j], node, name);
    if j > 0 {
      NamesClashExactlyWithinARecord(batches, node, j - 1, j);
      assert First(batches[j - 1]) == Last(batches[j]) ==> NameOf(batches[..j][j - 1], node) == name;
      forall i | 0 <= i < j && NameOf(batches[..j][i], node) == name ensures First(batches[j - 1]) == Last(batches[j]) {
        NamesClashExactlyWithinARecord(batches, node, i, j);
        LsnsGrow(batches, j - 1, j);
        LsnsGrow(batches, j, j);
        if i < j - 1 { LsnsGrow(batches, i, j - 1); }
        LsnsGrow(batches, i, i);
      }
    }
  }

  /** Where every record emits at most one event for the sink, the batches of a send have disjoint LSN ranges. */
  lemma RangesAreDisjoint(p: BatchPolicy, events: seq<SinkEvent>, i: nat, j: nat)
    requires p.maxEvents >= 1 && OnePerRecord(events) && i < j < |Batches(p, events)|
    ensures Batches(p, events)[i] != [] && Batches(p, events)[j] != []
    ensures Last(Batches(p, events)[i]) < First(Batches(p, events)[j])
  {
    BatchesOfAll(p, events);
    LsnsGrow(Batches(p, events), i, j);
  }

  /** One record with two events and one event per batch: both sends succeed, the second event is nowhere. */
  lemma SplitRecordLosesAnEvent(a: Event, b: Event, node: seq<byte>)
    ensures var events := [SinkEvent(node, 7, a), SinkEvent(node, 7, b)];
            var batches := Batches(BatchPolicy(1, 1, 0), events);
            && batches == [[events[0]], [events[1]]]
            && Stored(map[], batches, node) == map[NameOf([events[0]], node) := [events[0]]]
  {
    hide FileName;
    var events, p := [SinkEvent(node, 7, a), SinkEvent(node, 7, b)], BatchPolicy(1, 1, 0);
    assert events[1..] == [events[1]] && [events[1]][1..] == [];
    assert [] + [events[0]] == [events[0]];
    assert BatchesFrom(p, [], events) == BatchesFrom(p, [events[0]], [events[1]]);
    assert BatchesFrom(p, [events[0]], [events[1]]) == [[events[0]]] + BatchesFrom(p, [events[1]], []);
    var batches := Batches(p, events);
    assert batches == [[events[0]], [events[1]]];
    assert batches[..1] == [[events[0]]] && batches[..1][..0] == [];
    assert Stored(map[], batches[..1], node) == map[NameOf([events[0]], node) := [events[0]]];
  }

  // ---- any number of sends and retries --------------------------------------------------------

  /** One attempt to write a batch; a failed one may have stored its file all the same. */
  datatype Attempt = Attempt(rows: Batch, ok: bool, stored: bool)

  ghost predicate AttemptsOk(attempts: seq<Attempt>) {
    forall i :: 0 <= i < |attempts| ==> attempts[i].rows != [] && (attempts[i].ok ==> attempts[i].stored)
  }

  /** The directory after these attempts. */
  function AfterAttempts(files: Files, node: seq<byte>, attempts: seq<Attempt>): Files
    requires AttemptsOk(attempts)
  {
    if attempts == [] then files
    else
      var before, a := AfterAttempts(files, node, attempts[..|attempts| - 1]), attempts[|attempts| - 1];
      if a.stored then Put(before, NameOf(a.rows, node), a.rows) else before
  }

  ghost predicate IsStored(files: Files, node: seq<byte>, rows: Batch)
    requires rows != []
  {
    NameOf(rows, node) in files && files[NameOf(rows, node)] == rows
  }

  predicate SameRange(a: Batch, b: Batch)
    requires a != [] && b != []
  {
    First(a) == First(b) && Last(a) == Last(b)
  }

  lemma NamesMeanRanges(a: Batch, b: Batch, node: seq<byte>)
    requires a != [] && b != []
    ensures NameOf(a, node) == NameOf(b, node) <==> SameRange(a, b)
  {
    NamesAreInjective(MetadataOf(a, node), MetadataOf(b, node));
  }

  /** The rows of the first attempt that stored a file for this LSN range. */
  function FirstStored(attempts: seq<Attempt>, rows: Batch): Option<Batch>
    requires AttemptsOk(attempts) && rows != []
  {
    if attempts == [] then None
    else
      var before, a := FirstStored(attempts[..|attempts| - 1], rows), attempts[|attempts| - 1];
      if before.Some? then before else if a.stored && SameRange(a.rows, rows) then Some(a.rows) else None
  }

  lemma {:induction false} FileIsOfFirstStored(files: Files, node: seq<byte>, attempts: seq<Attempt>, rows: Batch)
    requires AttemptsOk(attempts) && rows != [] && NameOf(rows, node) !in files
    ensures var after, name := AfterAttempts(files, node, attempts), NameOf(rows, node);
            match FirstStored(attempts, rows)
            case None => name !in after
            case Some(first) => name in after && after[name] == first
    decreases |attempts|
  {
    hide NameOf, SameRange;
    if attempts != [] {
      var front, a := attempts[..|attempts| - 1], attempts[|attempts| - 1];
      FileIsOfFirstStored(files, node, front, rows);
      NamesMeanRanges(a.rows, rows, node);
    }
  }

  /** Over any number of sends and retries, cut into batches and planned differently each time, an acknowledged batch is
      in the directory row for row if and only if the first attempt that stored a file for its LSN range had the same
      rows. */
  lemma AcknowledgedStoredExactlyWhen(files: Files, node: seq<byte>, attempts: seq<Attempt>, i: nat)
    requires AttemptsOk(attempts) && i < |attempts| && attempts[i].ok && NameOf(attempts[i].rows, node) !in files
    ensures IsStored(AfterAttempts(files, node, attempts), node, attempts[i].rows)
       <==> FirstStored(attempts, attempts[i].rows) == Some(attempts[i].rows)
  {
    hide NameOf;
    FileIsOfFirstStored(files, node, attempts, attempts[i].rows);
  }

  /** These attempts write runs of one sequence of events. */
  ghost predicate RunsOf(events: seq<SinkEvent>, attempts: seq<Attempt>) {
    forall i :: 0 <= i < |attempts| ==> IsRun(events, attempts[i].rows)
  }

  ghost predicate AllStored(node: seq<byte>, attempts: seq<Attempt>)
    requires AttemptsOk(attempts)
  {
    forall i :: 0 <= i < |attempts| && attempts[i].ok ==>
      IsStored(AfterAttempts(map[], node, attempts), node, attempts[i].rows)
  }

  /** Attempts of equal LSN range have the same rows. */
  ghost predicate Unambiguous(attempts: seq<Attempt>)
    requires AttemptsOk(attempts)
  {
    forall i, j :: 0 <= i < |attempts| && 0 <= j < |attempts| && SameRange(attempts[i].rows, attempts[j].rows) ==>
      attempts[i].rows == attempts[j].rows
  }

  lemma {:induction false} FirstStoredIsTheRun(attempts: seq<Attempt>, i: nat)
    requires AttemptsOk(attempts) && Unambiguous(attempts) && i < |attempts| && attempts[i].stored
    ensures FirstStored(attempts, attempts[i].rows) == Some(attempts[i].rows)
    decreases |attempts|
  {
    hide SameRange;
    var n := |attempts| - 1;
    var front := attempts[..n];
    if i < n {
      assert front[i] == attempts[i];
      FirstStoredIsTheRun(front, i);
    } else if FirstStored(front, attempts[n].rows).Some? {
      var j := FirstStoredAt(front, attempts[n].rows);
      assert attempts[j] == front[j];
    } else {
      assert SameRange(attempts[n].rows, attempts[n].rows) by { EqualRanges(attempts[n].rows); }
    }
  }

  lemma EqualRanges(rows: Batch)
    requires rows != []
    ensures SameRange(rows, rows)
  {
  }

  lemma {:induction false} FirstStoredAt(attempts: seq<Attempt>, rows: Batch) returns (j: nat)
    requires AttemptsOk(attempts) && rows != [] && FirstStored(attempts, rows).Some?
    ensures j < |attempts| && SameRange(attempts[j].rows, rows)
    ensures FirstStored(attempts, rows) == Some(attempts[j].rows)
    decreases |attempts|
  {
    hide SameRange;
    var n := |attempts| - 1;
    if FirstStored(attempts[..n], rows).Some? { j := FirstStoredAt(attempts[..n], rows); } else { j := n; }
  }

  lemma UnambiguousIsStored(node: seq<byte>, attempts: seq<Attempt>)
    requires AttemptsOk(attempts) && Unambiguous(attempts)
    ensures AllStored(node, attempts)
  {
    hide NameOf, IsStored, Unambiguous;
    forall i | 0 <= i < |attempts| && attempts[i].ok
      ensures IsStored(AfterAttempts(map[], node, attempts), node, attempts[i].rows)
    {
      FirstStoredIsTheRun(attempts, i);
      AcknowledgedStoredExactlyWhen(map[], node, attempts, i);
    }
  }

  // ---- plans that agree -----------------------------------------------------------------------

  ghost predicate SameBetween(p: seq<SinkEvent>, i: int, j: int, q: seq<SinkEvent>, k: int, l: int) {
    0 <= i <= j < |p| && 0 <= k <= l < |q| && p[i].lsn == q[k].lsn && p[j].lsn == q[l].lsn ==>
      p[i..j + 1] == q[k..l + 1]
  }

  /** Between any two LSNs that both emit for, these two sequences hold the same events. */
  ghost predicate Agree(p: seq<SinkEvent>, q: seq<SinkEvent>) {
    forall i, j, k, l :: SameBetween(p, i, j, q, k, l)
  }

  /** A sequence agrees with itself if and only if no record emits two of its events. */
  lemma AgreesWithItself(events: seq<SinkEvent>)
    ensures OnePerRecord(events) ==> Agree(events, events) && InOrder(events)
    ensures InOrder(events) && Agree(events, events) ==> OnePerRecord(events)
  {
    if OnePerRecord(events) {
      forall i, j, k, l ensures SameBetween(events, i, j, events, k, l) {
        if 0 <= i < |events| && 0 <= k < |events| && events[i].lsn == events[k].lsn { assert i == k; }
        if 0 <= j < |events| && 0 <= l < |events| && events[j].lsn == events[l].lsn { assert j == l; }
      }
    } else if InOrder(events) {
      var i, j :| 0 <= i < j < |events| && events[i].lsn >= events[j].lsn;
      assert !SameBetween(events, i, j, events, i, i);
    }
  }

  /** Runs of agreeing sequences are equal if their LSN ranges are. */
  lemma RunsOfAgreeing(p: seq<SinkEvent>, q: seq<SinkEvent>, x: Batch, y: Batch)
    requires Agree(p, q) && IsRun(p, x) && IsRun(q, y) && x != [] && y != [] && SameRange(x, y)
    ensures x == y
  {
    hide RunAt, SameBetween, Agree;
    var a, b :| RunAt(p, x, a, b);
    var c, d :| RunAt(q, y, c, d);
    EndsOfRun(p, x, a, b);
    EndsOfRun(q, y, c, d);
    AgreeAt(p, q, a, b - 1, c, d - 1);
  }

  lemma AgreeAt(p: seq<SinkEvent>, q: seq<SinkEvent>, i: nat, j: nat, k: nat, l: nat)
    requires Agree(p, q) && i <= j < |p| && k <= l < |q| && p[i].lsn == q[k].lsn && p[j].lsn == q[l].lsn
    ensures p[i..j + 1] == q[k..l + 1]
  {
    assert SameBetween(p, i, j, q, k, l);
  }

  lemma EndsOfRun(events: seq<SinkEvent>, x: Batch, a: int, b: int)
    requires RunAt(events, x, a, b)
    ensures 0 <= a < b <= |events| && x == events[a..b] && x != []
    ensures First(x) == events[a].lsn && Last(x) == events[b - 1].lsn
  {
  }

  /** With one event per record the file name determines which events a batch holds. */
  lemma NameDeterminesRun(events: seq<SinkEvent>, node: seq<byte>, x: Batch, y: Batch)
    requires OnePerRecord(events) && IsRun(events, x) && IsRun(events, y) && x != [] && y != []
    ensures NameOf(x, node) == NameOf(y, node) <==> x == y
  {
    hide IsRun, OnePerRecord, NameOf, Agree;
    NamesMeanRanges(x, y, node);
    AgreesWithItself(events);
    if SameRange(x, y) { RunsOfAgreeing(events, events, x, y); }
  }

  /** These attempts write runs of the sequences planned: each of one of them. */
  ghost predicate RunsOfPlans(plans: iset<seq<SinkEvent>>, attempts: seq<Attempt>) {
    forall i :: 0 <= i < |attempts| ==> exists p :: p in plans && IsRun(p, attempts[i].rows)
  }

  ghost predicate AllAgree(plans: iset<seq<SinkEvent>>) {
    forall p, q :: p in plans && q in plans ==> Agree(p, q)
  }

  lemma AgreeingIsUnambiguous(plans: iset<seq<SinkEvent>>, attempts: seq<Attempt>)
    requires AllAgree(plans) && AttemptsOk(attempts) && RunsOfPlans(plans, attempts)
    ensures Unambiguous(attempts)
  {
    hide Agree, IsRun, SameRange;
    forall i, j | 0 <= i < |attempts| && 0 <= j < |attempts| && SameRange(attempts[i].rows, attempts[j].rows)
      ensures attempts[i].rows == attempts[j].rows
    {
      var p :| p in plans && IsRun(p, attempts[i].rows);
      var q :| q in plans && IsRun(q, attempts[j].rows);
      RunsOfAgreeing(p, q, attempts[i].rows, attempts[j].rows);
    }
  }

  /** Two sequences that differ between two LSNs of both: each is sent once, both sends succeed, and the rows of the
      second are not there. */
  lemma DisagreementLosesARow(p: seq<SinkEvent>, q: seq<SinkEvent>, node: seq<byte>, i: nat, j: nat, k: nat, l: nat)
    requires !SameBetween(p, i, j, q, k, l)
    ensures var attempts := [Attempt(p[i..j + 1], true, true), Attempt(q[k..l + 1], true, true)];
            AttemptsOk(attempts) && RunsOfPlans(iset{p, q}, attempts) && !AllStored(node, attempts)
  {
    hide NameOf;
    var x, y := p[i..j + 1], q[k..l + 1];
    var attempts := [Attempt(x, true, true), Attempt(y, true, true)];
    assert RunAt(p, x, i, j + 1) && RunAt(q, y, k, l + 1);
    assert attempts[..1] == [attempts[0]] && attempts[..1][..0] == [];
    assert FirstStored(attempts[..1], y) == Some(x);
    AcknowledgedStoredExactlyWhen(map[], node, attempts, 1);
  }

  /** Sends and retries that write runs of these sequences, cut into batches and interleaved in any way, are all safe if
      and only if any two of the sequences, and each with itself, agree. */
  lemma RetriesAreSafeExactlyWhen(plans: iset<seq<SinkEvent>>, node: seq<byte>)
    ensures (forall attempts | AttemptsOk(attempts) && RunsOfPlans(plans, attempts) :: AllStored(node, attempts))
       <==> AllAgree(plans)
  {
    hide AttemptsOk, AllStored, SameBetween, IsRun;
    if AllAgree(plans) {
      forall attempts | AttemptsOk(attempts) && RunsOfPlans(plans, attempts) ensures AllStored(node, attempts) {
        AgreeingIsUnambiguous(plans, attempts);
        UnambiguousIsStored(node, attempts);
      }
    } else {
      var p, q :| p in plans && q in plans && !Agree(p, q);
      var i, j, k, l :| !SameBetween(p, i, j, q, k, l);
      DisagreementIsInside(p, q, i, j, k, l);
      DisagreementLosesARow(p, q, node, i, j, k, l);
      assert RunsOfPlans(plans, [Attempt(p[i..j + 1], true, true), Attempt(q[k..l + 1], true, true)]);
    }
  }

  lemma DisagreementIsInside(p: seq<SinkEvent>, q: seq<SinkEvent>, i: int, j: int, k: int, l: int)
    requires !SameBetween(p, i, j, q, k, l)
    ensures 0 <= i <= j < |p| && 0 <= k <= l < |q|
  {
  }

  /** For events that are planned alike each time: retries are safe, whatever the batches, if and only if no two of the
      events belong to one record. */
  lemma OnePlanIsSafeExactlyWhen(events: seq<SinkEvent>, node: seq<byte>)
    requires InOrder(events)
    ensures (forall attempts | AttemptsOk(attempts) && RunsOf(events, attempts) :: AllStored(node, attempts))
       <==> OnePerRecord(events)
  {
    hide AttemptsOk, AllStored, IsRun, Agree;
    RetriesAreSafeExactlyWhen(iset{events}, node);
    AgreesWithItself(events);
    forall attempts ensures RunsOfPlans(iset{events}, attempts) <==> RunsOf(events, attempts) {
    }
  }

  /** With at most one event per record, a run once acknowledged is and stays stored row for row, however the events are
      cut into batches from attempt to attempt. */
  lemma AcknowledgedIsStored(events: seq<SinkEvent>, node: seq<byte>, attempts: seq<Attempt>)
    requires OnePerRecord(events) && AttemptsOk(attempts) && RunsOf(events, attempts)
    ensures AllStored(node, attempts)
  {
    hide AttemptsOk, RunsOf, AllStored, OnePerRecord, Agree;
    AgreesWithItself(events);
    OnePlanIsSafeExactlyWhen(events, node);
  }

  /** Two adjacent events of one record: once the first is stored alone, a batch that begins with both is dropped. */
  lemma SharedRecordLosesARow(events: seq<SinkEvent>, node: seq<byte>, i: nat)
    requires i + 1 < |events| && events[i].lsn == events[i + 1].lsn
    ensures var attempts := [Attempt([events[i]], true, true), Attempt([events[i], events[i + 1]], true, true)];
            AttemptsOk(attempts) && RunsOf(events, attempts) && !AllStored(node, attempts)
  {
    hide AllStored;
    assert !SameBetween(events, i, i, events, i, i + 1);
    DisagreementLosesARow(events, events, node, i, i, i, i + 1);
    assert events[i..i + 1] == [events[i]] && events[i..i + 2] == [events[i], events[i + 1]];
    assert RunAt(events, [events[i]], i, i + 1) && RunAt(events, [events[i], events[i + 1]], i, i + 2);
  }

  /** Record 7 emits two events. With one event per batch the first is committed and the second fails; after the batch
      size is raised to two, the retry succeeds with both in one batch, and the second event is nowhere. */
  lemma RetryLosesAnEvent(a: Event, b: Event, node: seq<byte>)
    ensures var events := [SinkEvent(node, 7, a), SinkEvent(node, 7, b)];
            var attempts := [Attempt([events[0]], true, true), Attempt([events[1]], false, false),
                             Attempt(events, true, true)];
            && Batches(BatchPolicy(1, 1, 0), events) == [[events[0]], [events[1]]]
            && Batches(BatchPolicy(2, U64_LIMIT, 0), events) == [events]
            && AttemptsOk(attempts)
            && AfterAttempts(map[], node, attempts) == map[NameOf([events[0]], node) := [events[0]]]
  {
    hide NameOf, BytesOf;
    var events := [SinkEvent(node, 7, a), SinkEvent(node, 7, b)];
    var attempts := [Attempt([events[0]], true, true), Attempt([events[1]], false, false), Attempt(events, true, true)];
    SplitRecordLosesAnEvent(a, b, node);
    assert events[1..] == [events[1]] && [events[1]][1..] == [] && [] + [events[0]] == [events[0]];
    var p := BatchPolicy(2, U64_LIMIT, 0);
    assert BatchesFrom(p, [], events) == BatchesFrom(p, [events[0]], [events[1]]);
    assert [events[0]] + [events[1]] == events;
    assert BatchesFrom(p, [events[0]], [events[1]]) == BatchesFrom(p, events, []);
    assert attempts[..2] == [attempts[0], attempts[1]] && attempts[..2][..1] == [attempts[0]]
           && [attempts[0]][..0] == [];
    NamesMeanRanges(events, [events[0]], node);
    assert AfterAttempts(map[], node, [attempts[0]]) == map[NameOf([events[0]], node) := [events[0]]];
  }

  // ---- calls of the sink ----------------------------------------------------------------------

  lemma PutInSame(a: Files, b: Files, m: Metadata, rows: Batch)
    requires SameCommitted(a, b)
    ensures SameCommitted(Put(a, FileName(m), rows), Put(b, FileName(m), rows))
  {
    hide FileName;
  }

  lemma SameTwice(a: Files, b: Files, d: Files)
    requires SameCommitted(a, b) && SameCommitted(b, d)
    ensures SameCommitted(a, d)
  {
    hide FileName;
  }

  /** These directories are what calls of `write_events` for these batches leave one after the other. */
  ghost predicate Calls(states: seq<Files>, batches: seq<Batch>, oks: seq<bool>, node: seq<byte>) {
    && |states| == |batches| + 1 && |oks| == |batches| && NonEmpty(batches)
    && forall i :: 0 <= i < |batches| ==>
         WriteResult(states[i], states[i + 1], MetadataOf(batches[i], node), batches[i], oks[i])
  }

  /** Calls of the sink are attempts: whatever faults each of them met, readers find what the attempts leave. */
  lemma {:induction false} CallsAreAttempts(states: seq<Files>, batches: seq<Batch>, oks: seq<bool>, node: seq<byte>)
    returns (attempts: seq<Attempt>)
    requires Calls(states, batches, oks, node)
    ensures |attempts| == |batches| && AttemptsOk(attempts)
    ensures forall i :: 0 <= i < |batches| ==> attempts[i].rows == batches[i] && attempts[i].ok == oks[i]
    ensures SameCommitted(states[|batches|], AfterAttempts(states[0], node, attempts))
    decreases |batches|
  {
    hide FileName, SameCommitted, Put, MetadataOf;
    if batches == [] {
      attempts := [];
      NothingWritten(states[0]);
    } else {
      var n := |batches| - 1;
      var front := CallsAreAttempts(states[..n + 1], batches[..n], oks[..n], node);
      var b, m, before := batches[n], MetadataOf(batches[n], node), AfterAttempts(states[0], node, front);
      PutInSame(states[n], before, m, b);
      if SameCommitted(states[n + 1], Put(states[n], FileName(m), b)) {
        attempts := front + [Attempt(b, oks[n], true)];
        SameTwice(states[n + 1], Put(states[n], FileName(m), b), Put(before, FileName(m), b));
      } else {
        attempts := front + [Attempt(b, false, false)];
        SameTwice(states[n + 1], states[n], before);
      }
      assert attempts[..n] == front;
    }
  }

  lemma NothingWritten(files: Files)
    ensures SameCommitted(files, files)
  {
  }

  /** So a call that reported success has its rows in the directory after all the calls if and only if the first of the
      calls' attempts that stored a file for its LSN range had the same rows. */
  lemma CallsStoreExactlyWhen(states: seq<Files>, batches: seq<Batch>, oks: seq<bool>, node: seq<byte>, i: nat)
    returns (attempts: seq<Attempt>)
    requires Calls(states, batches, oks, node) && i < |batches| && oks[i] && NameOf(batches[i], node) !in states[0]
    ensures |attempts| == |batches| && AttemptsOk(attempts)
    ensures forall j :: 0 <= j < |batches| ==> attempts[j].rows == batches[j] && attempts[j].ok == oks[j]
    ensures IsStored(states[|batches|], node, batches[i]) <==> FirstStored(attempts, batches[i]) == Some(batches[i])
  {
    hide FileName, MetadataOf, AfterAttempts, FirstStored, WriteResult;
    attempts := CallsAreAttempts(states, batches, oks, node);
    AcknowledgedStoredExactlyWhen(states[0], node, attempts, i);
  }

  // ---- what replay sends ----------------------------------------------------------------------

  /** Every send of a pass is an attempt to write a run of the events that the records emit, in log order and named
      after its own events, whatever windows and batches the pass makes. */
  lemma PassSendsRuns(w: World, cfg: Config, entries: seq<Entry>, base: nat, start: Option<Position>,
                      timers: map<string, nat>, k: nat, node: seq<byte>)
    requires Distinct(cfg.sinkNames) && Contiguous(entries, base) && (start.Some? ==> start.value.lsn == base)
    requires forall n :: 0 <= n < |entries| ==> entries[n].record.nodeId == node
    requires k < |Pass(w, cfg, start, timers, entries).0.trace| && Pass(w, cfg, start, timers, entries).0.trace[k].Send?
    ensures var e := Pass(w, cfg, start, timers, entries).0.trace[k];
            var all := Emitted(cfg, entries, e.sink);
            && IsRun(all, e.events) && InOrder(all)
            && e.events != [] && e.metadata == Metadata(node, e.events[0].lsn, e.events[|e.events| - 1].lsn)
            && (AtMostOneEach(cfg, entries, e.sink) ==> OnePerRecord(all))
  {
    hide Pass, Emitted, SendsRun, AtMostOneEach, OnePerRecord, Contiguous, InOrder, OfNode, IsRun;
    PassIsSound(w, cfg, entries, [], base, start, timers);
    assert entries + [] == entries;
    var trace := Pass(w, cfg, start, timers, entries).0.trace;
    assert Sound(cfg, entries, base, start, trace[..k], trace[k]);
    var all := Emitted(cfg, entries, trace[k].sink);
    EmittedInOrder(cfg, entries, base, trace[k].sink);
    EmittedOfNode(cfg, entries, trace[k].sink, node);
    SendsOfOneNode(all, trace[k].events, trace[k].metadata, node);
    if AtMostOneEach(cfg, entries, trace[k].sink) { EmitsOnePerRecord(cfg, entries, base, trace[k].sink); }
  }
}
