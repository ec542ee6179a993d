/** Reading a WAL directory: the directory-level loops of src/wal/mod.rs on the bytes of its files. */
module LogReader {
  import opened Bytes
  import opened Wrappers
  import opened FrameCodec
  import opened SegmentCodec
  import opened SegmentFile
  import opened SegmentLog
  import opened WalSpec

  type Files = map<nat, seq<byte>>

  /** Every segment of the log is stored in its file. */
  ghost predicate Stored(c: Codec, nodeId: seq<byte>, files: Files, segs: Log) {
    && |nodeId| <= MAX_NODE_ID_LEN
    && forall k :: 0 <= k < |segs| ==>
         && SegmentOk(c, nodeId, segs[k])
         && segs[k].id in files && files[segs[k].id] == Image(c, nodeId, segs[k])
  }

  /** The directory holds this log: one file a segment, no other file. */
  ghost predicate Holds(c: Codec, nodeId: seq<byte>, files: Files, segs: Log) {
    && Ordered(segs)
    && Stored(c, nodeId, files, segs)
    && forall id :: id in files ==> exists k :: 0 <= k < |segs| && segs[k].id == id
  }

  ghost predicate Sorted(ids: seq<nat>) {
    forall i, j :: 0 <= i < j < |ids| ==> ids[i] < ids[j]
  }

  function IdsOf(segs: Log): (ids: seq<nat>)
    ensures |ids| == |segs|
  {
    seq(|segs|, k requires 0 <= k < |segs| => segs[k].id)
  }

  method Smallest(ids: set<nat>) returns (m: nat)
    requires ids != {}
    ensures m in ids && forall id :: id in ids ==> m <= id
  {
    m :| m in ids;
    var rest := ids - {m};
    while rest != {}
      invariant m in ids && rest <= ids
      invariant forall id :: id in ids && id !in rest ==> m <= id
      decreases rest
    {
      var x :| x in rest;
      rest := rest - {x};
      if x < m { m := x; }
    }
  }

  /** `segment_ids` followed by the sort its callers apply. */
  method SegmentIds(files: Files) returns (ids: seq<nat>)
    ensures Sorted(ids) && forall id :: id in ids <==> id in files
  {
    ids := [];
    var rest := files.Keys;
    while rest != {}
      invariant Sorted(ids) && rest <= files.Keys
      invariant forall id :: id in ids <==> id in files && id !in rest
      invariant forall i, id :: 0 <= i < |ids| && id in rest ==> ids[i] < id
      decreases rest
    {
      var m := Smallest(rest);
      rest := rest - {m};
      ids := ids + [m];
    }
  }

  lemma {:induction false} SortedUnique(a: seq<nat>, b: seq<nat>)
    requires Sorted(a) && Sorted(b) && forall id :: id in a <==> id in b
    ensures a == b
  {
    assert |b| == 0 || b[0] in b;
    if a != [] {
      assert a[0] in b && b != [];
      assert b[0] in a;
      assert a[0] == b[0];
      forall id ensures id in a[1..] <==> id in b[1..] {
        if id in a[1..] { assert id in b && id != b[0]; }
        if id in b[1..] { assert id in a && id != a[0]; }
      }
      SortedUnique(a[1..], b[1..]);
      assert a == [a[0]] + a[1..] && b == [b[0]] + b[1..];
    }
  }

  /** The sorted listing of a directory is the id sequence of its log. */
  lemma ListingIsIds(c: Codec, nodeId: seq<byte>, files: Files, segs: Log, ids: seq<nat>)
    requires Holds(c, nodeId, files, segs)
    requires Sorted(ids) && forall id :: id in ids <==> id in files
    ensures ids == IdsOf(segs)
  {
    var own := IdsOf(segs);
    assert forall k :: 0 <= k < |segs| ==> own[k] == segs[k].id && own[k] in files;
    forall id ensures id in own <==> id in ids {
      if id in ids {
        var k :| 0 <= k < |segs| && segs[k].id == id;
        assert own[k] == id;
      }
    }
    SortedUnique(ids, own);
  }

  // ---- read_entries_after_limit -------------------------------------------------------------

  function StartOffset(checkpoint: Option<Position>, id: nat): nat {
    if checkpoint.Some? && checkpoint.value.segment == id then checkpoint.value.offset else SEGMENT_HEADER_LEN
  }

  function Remaining(limit: Option<nat>, taken: nat): Option<nat> {
    if limit.None? then None
    else if taken >= limit.value then Some(0)
    else Some(limit.value - taken)
  }

  function ReadLog(c: Codec, files: Files, ids: seq<nat>, checkpoint: Option<Position>, limit: Option<nat>)
    : Result<seq<Entry>, WalError>
    requires forall id :: id in ids ==> id in files
  {
    if ids == [] || limit == Some(0) then Success([])
    else if checkpoint.Some? && ids[0] < checkpoint.value.segment then
      ReadLog(c, files, ids[1..], checkpoint, limit)
    else
      var here :- ReadSegment(c, files[ids[0]], ids[0], StartOffset(checkpoint, ids[0]), limit);
      var rest :- ReadLog(c, files, ids[1..], checkpoint, Remaining(limit, |here|));
      Success(here + rest)
  }

  /** A start the writer can have produced: absent, or a frame boundary if its segment is still there. */
  ghost predicate Aligned(c: Codec, segs: Log, checkpoint: Option<Position>) {
    checkpoint.Some? ==>
      forall k :: 0 <= k < |segs| && segs[k].id == checkpoint.value.segment ==>
        exists i :: Located(c, segs, checkpoint.value, k, i)
  }

  lemma ReadOneSegment(c: Codec, nodeId: seq<byte>, segs: Log, k: nat, checkpoint: Option<Position>, limit: Option<nat>)
    requires Lawful(c) && k < |segs| && SegmentOk(c, nodeId, segs[k]) && Aligned(c, segs, checkpoint)
    requires checkpoint.Some? ==> checkpoint.value.segment <= segs[k].id
    ensures ReadSegment(c, Image(c, nodeId, segs[k]), segs[k].id, StartOffset(checkpoint, segs[k].id), limit)
            == Success(Take(WholeSegment(c, segs[k], FirstFrame(c, segs[k], checkpoint)), limit))
  {
    var seg := segs[k];
    var i := FirstFrame(c, seg, checkpoint);
    if checkpoint.Some? && checkpoint.value.segment == seg.id {
      var j :| Located(c, segs, checkpoint.value, k, j);
      FrameIndexFinds(c, seg.recs, j, 0);
    }
    hide ReadSegment, Image;
    assert StartOffset(checkpoint, seg.id) == Offset(c, seg.recs, i);
    ReadSegmentOfImage(c, nodeId, seg, i, limit);
    assert EntriesOf(c, seg, i, Reach(seg, i, limit)) == Take(WholeSegment(c, seg, i), limit);
  }

  lemma TakeConcat<T>(a: seq<T>, b: seq<T>, limit: Option<nat>)
    ensures Take(a + b, limit) == Take(a, limit) + Take(b, Remaining(limit, |Take(a, limit)|))
  {
  }

  /** Reading the directory returns the log after the start, up to the limit. */
  lemma {:induction false} ReadLogOfImage(c: Codec, nodeId: seq<byte>, files: Files, segs: Log,
                                          checkpoint: Option<Position>, limit: Option<nat>)
    requires Lawful(c) && Ordered(segs) && Stored(c, nodeId, files, segs) && Aligned(c, segs, checkpoint)
    ensures forall id :: id in IdsOf(segs) ==> id in files
    ensures ReadLog(c, files, IdsOf(segs), checkpoint, limit)
            == Success(Take(EntriesAfter(c, segs, checkpoint), limit))
  {
    hide ReadSegment, Image, WholeSegment, SegmentOk, FirstFrame;
    if segs != [] && limit != Some(0) {
      var rest := segs[1..];
      assert IdsOf(segs)[1..] == IdsOf(rest);
      forall k | 0 <= k < |rest| && checkpoint.Some? && rest[k].id == checkpoint.value.segment
        ensures exists i :: Located(c, rest, checkpoint.value, k, i)
      {
        var i :| Located(c, segs, checkpoint.value, k + 1, i);
        assert Located(c, rest, checkpoint.value, k, i);
      }
      var mine := WholeSegment(c, segs[0], FirstFrame(c, segs[0], checkpoint));
      if checkpoint.Some? && segs[0].id < checkpoint.value.segment {
        SkippedSegment(c, segs[0], checkpoint);
        assert EntriesAfter(c, segs, checkpoint) == EntriesAfter(c, rest, checkpoint);
        ReadLogOfImage(c, nodeId, files, rest, checkpoint, limit);
      } else {
        ReadOneSegment(c, nodeId, segs, 0, checkpoint, limit);
        ReadLogOfImage(c, nodeId, files, rest, checkpoint, Remaining(limit, |Take(mine, limit)|));
        TakeConcat(mine, EntriesAfter(c, rest, checkpoint), limit);
      }
    }
  }

  lemma SkippedSegment(c: Codec, seg: Segment, checkpoint: Option<Position>)
    requires checkpoint.Some? && seg.id < checkpoint.value.segment
    ensures WholeSegment(c, seg, FirstFrame(c, seg, checkpoint)) == []
  {
  }

  /** One turn of the loop in `read_entries_after_limit`. */
  lemma ReadLogStep(c: Codec, files: Files, ids: seq<nat>, n: nat, checkpoint: Option<Position>,
                    limit: Option<nat>, entries: seq<Entry>)
    requires n < |ids| && forall id :: id in ids ==> id in files
    ensures var id, remaining := ids[n], Remaining(limit, |entries|);
            var whole := Prepend(entries, ReadLog(c, files, ids[n..], checkpoint, remaining));
            if remaining == Some(0) then whole == Success(entries)
            else if checkpoint.Some? && id < checkpoint.value.segment
            then whole == Prepend(entries, ReadLog(c, files, ids[n + 1..], checkpoint, remaining))
            else
              var here := ReadSegment(c, files[id], id, StartOffset(checkpoint, id), remaining);
              if here.Failure? then whole == here
              else
                var more := entries + here.value;
                whole == Prepend(more, ReadLog(c, files, ids[n + 1..], checkpoint, Remaining(limit, |more|)))
  {
    hide ReadSegment;
    var id, remaining := ids[n], Remaining(limit, |entries|);
    assert ids[n..][0] == id && ids[n..][1..] == ids[n + 1..];
    PrependTwice(entries, [], Success([]));
    var here := ReadSegment(c, files[id], id, StartOffset(checkpoint, id), remaining);
    if here.Success? {
      PrependTwice(entries, here.value,
                   ReadLog(c, files, ids[n + 1..], checkpoint, Remaining(limit, |entries + here.value|)));
    }
  }

  lemma ReadDirectory(c: Codec, nodeId: seq<byte>, files: Files, segs: Log, ids: seq<nat>,
                      checkpoint: Option<Position>, limit: Option<nat>)
    requires Sorted(ids) && forall id :: id in ids <==> id in files
    ensures Lawful(c) && Holds(c, nodeId, files, segs) && Aligned(c, segs, checkpoint)
            ==> ReadLog(c, files, ids, checkpoint, limit) == Success(Take(EntriesAfter(c, segs, checkpoint), limit))
  {
    if Lawful(c) && Holds(c, nodeId, files, segs) && Aligned(c, segs, checkpoint) {
      ListingIsIds(c, nodeId, files, segs, ids);
      ReadLogOfImage(c, nodeId, files, segs, checkpoint, limit);
    }
  }

  /** `read_entries_after_limit`. */
  method ReadEntriesAfterLimit(c: Codec, files: Files, checkpoint: Option<Position>, limit: Option<nat>,
                               ghost nodeId: seq<byte>, ghost segs: Log)
    returns (res: Result<seq<Entry>, WalError>)
    ensures Lawful(c) && Holds(c, nodeId, files, segs) && Aligned(c, segs, checkpoint)
            ==> res == Success(Take(EntriesAfter(c, segs, checkpoint), limit))
  {
    hide ReadSegment, ReadLog, Prepend, Aligned, Holds, Lawful, EntriesAfter, Take;
    var ids := SegmentIds(files);
    ghost var whole := ReadLog(c, files, ids, checkpoint, limit);
    ReadDirectory(c, nodeId, files, segs, ids, checkpoint, limit);
    var entries: seq<Entry> := [];
    assert ids[0..] == ids;
    PrependTwice([], [], whole);
    for n := 0 to |ids|
      invariant whole == Prepend(entries, ReadLog(c, files, ids[n..], checkpoint, Remaining(limit, |entries|)))
    {
      var id := ids[n];
      ReadLogStep(c, files, ids, n, checkpoint, limit, entries);
      if checkpoint.Some? && id < checkpoint.value.segment {
        if Remaining(limit, |entries|) == Some(0) { NothingMore(c, files, ids[n + 1..], checkpoint, entries); }
        continue;
      }
      var remaining := Remaining(limit, |entries|);
      if remaining == Some(0) { return Success(entries); }
      var here := ReadSegmentEntriesAfter(c, files[id], id, StartOffset(checkpoint, id), remaining);
      if here.Failure? { return here; }
      entries := entries + here.value;
      if limit.Some? && |entries| >= limit.value {
        NothingMore(c, files, ids[n + 1..], checkpoint, entries);
        return Success(entries);
      }
    }
    assert ids[|ids|..] == [];
    AtTheEnd(c, files, checkpoint, Remaining(limit, |entries|), entries);
    return Success(entries);
  }

  lemma NothingMore(c: Codec, files: Files, ids: seq<nat>, checkpoint: Option<Position>, entries: seq<Entry>)
    requires forall id :: id in ids ==> id in files
    ensures Prepend(entries, ReadLog(c, files, ids, checkpoint, Some(0))) == Success(entries)
  {
    PrependTwice(entries, [], Success([]));
  }

  lemma AtTheEnd(c: Codec, files: Files, checkpoint: Option<Position>, limit: Option<nat>, entries: seq<Entry>)
    ensures Prepend(entries, ReadLog(c, files, [], checkpoint, limit)) == Success(entries)
  {
    PrependTwice(entries, [], Success([]));
  }

  // ---- read_wal_bounds, recover_next_lsn, recover_active_segment_id --------------------------

  lemma {:induction false} EntriesConcat(c: Codec, a: Log, b: Log)
    ensures EntriesAfter(c, a + b, None) == EntriesAfter(c, a, None) + EntriesAfter(c, b, None)
  {
    hide WholeSegment;
    if a == [] {
      assert a + b == b;
    } else {
      EntriesConcat(c, a[1..], b);
      var ab := a + b;
      assert ab[1..] == a[1..] + b && ab[0] == a[0];
      Assoc(WholeSegment(c, a[0], 0), EntriesAfter(c, a[1..], None), EntriesAfter(c, b, None));
    }
  }

  /** Reading one more segment of the directory adds that segment's entries. */
  lemma NextSegment(c: Codec, nodeId: seq<byte>, files: Files, segs: Log, ids: seq<nat>, n: nat)
    requires Lawful(c) && Holds(c, nodeId, files, segs) && ids == IdsOf(segs) && n < |ids|
    ensures ids[n] in files && files[ids[n]] == Image(c, nodeId, segs[n])
    ensures ReadSegment(c, files[ids[n]], ids[n], SEGMENT_HEADER_LEN, None) == Success(WholeSegment(c, segs[n], 0))
    ensures EntriesAfter(c, segs[..n + 1], None) == EntriesAfter(c, segs[..n], None) + WholeSegment(c, segs[n], 0)
    ensures Flat(segs[..n + 1]) == Flat(segs[..n]) + segs[n].recs
    ensures RecordsOf(WholeSegment(c, segs[n], 0)) == segs[n].recs
  {
    ReadSegmentOfImage(c, nodeId, segs[n], 0, None);
    OneMoreSegment(c, segs, n);
    hide ReadSegment, Image, SegmentOk, Flat, EntriesAfter, RecordsOf;
    assert ids[n] == segs[n].id;
  }

  lemma OneMoreSegment(c: Codec, segs: Log, n: nat)
    requires n < |segs|
    ensures EntriesAfter(c, segs[..n + 1], None) == EntriesAfter(c, segs[..n], None) + WholeSegment(c, segs[n], 0)
    ensures Flat(segs[..n + 1]) == Flat(segs[..n]) + segs[n].recs
    ensures RecordsOf(WholeSegment(c, segs[n], 0)) == segs[n].recs
  {
    assert RecordsOf(WholeSegment(c, segs[n], 0)) == segs[n].recs;
    hide WholeSegment, RecordsOf;
    var one := [segs[n]];
    assert segs[..n + 1] == segs[..n] + one;
    EntriesConcat(c, segs[..n], one);
    assert EntriesAfter(c, one, None) == WholeSegment(c, segs[n], 0) + EntriesAfter(c, one[1..], None);
    assert EntriesAfter(c, one, None) == WholeSegment(c, segs[n], 0);
    FlatConcat(segs[..n], one);
    assert Flat(one) == segs[n].recs + Flat(one[1..]);
    assert Flat(one) == segs[n].recs;
  }

  function FloorOf(entries: seq<Entry>): Option<Position> {
    if entries == [] then None else Some(entries[0].position)
  }

  function EndOf(entries: seq<Entry>): Option<Position> {
    if entries == [] then None else Some(entries[|entries| - 1].nextPosition)
  }

  /** Every entry's two positions carry its record's LSN. */
  ghost predicate LsnsAgree(entries: seq<Entry>) {
    forall i :: 0 <= i < |entries| ==>
      entries[i].position.lsn == entries[i].record.lsn == entries[i].nextPosition.lsn
  }

  lemma AgreeConcat(a: seq<Entry>, b: seq<Entry>)
    requires LsnsAgree(a) && LsnsAgree(b)
    ensures LsnsAgree(a + b)
  {
  }

  lemma {:induction false} EntriesAgree(c: Codec, segs: Log, start: Option<Position>)
    ensures LsnsAgree(EntriesAfter(c, segs, start))
  {
    if segs != [] {
      EntriesAgree(c, segs[1..], start);
      var here := WholeSegment(c, segs[0], FirstFrame(c, segs[0], start));
      forall n | 0 <= n < |here|
        ensures here[n].position.lsn == here[n].record.lsn == here[n].nextPosition.lsn
      {
        WholeSegmentAt(c, segs[0], FirstFrame(c, segs[0], start), n);
      }
      AgreeConcat(here, EntriesAfter(c, segs[1..], start));
    }
  }

  /** The inner loop of `read_wal_bounds`. */
  method BoundsOfEntries(entries: seq<Entry>, floor0: Option<Position>, tail0: Option<Position>, maxLsn0: nat,
                         ghost seen: seq<Entry>)
    returns (floor: Option<Position>, tail: Option<Position>, maxLsn: nat)
    requires floor0 == FloorOf(seen) && tail0 == EndOf(seen) && maxLsn0 == MaxLsn(RecordsOf(seen))
    ensures floor == FloorOf(seen + entries) && tail == EndOf(seen + entries)
    ensures maxLsn == MaxLsn(RecordsOf(seen + entries))
  {
    hide RecordsOf, MaxLsn;
    floor, tail, maxLsn := floor0, tail0, maxLsn0;
    assert seen + entries[..0] == seen;
    for m := 0 to |entries|
      invariant floor == FloorOf(seen + entries[..m]) && tail == EndOf(seen + entries[..m])
      invariant maxLsn == MaxLsn(RecordsOf(seen + entries[..m]))
    {
      var entry := entries[m];
      if floor.None? { floor := Some(entry.position); }
      maxLsn := Max(maxLsn, entry.record.lsn);
      tail := Some(entry.nextPosition);
      OneMoreRecord(seen + entries[..m], entry);
      assert seen + entries[..m + 1] == seen + entries[..m] + [entry];
    }
    assert entries[..|entries|] == entries;
  }

  /** `read_wal_bounds`. */
  method ReadWalBounds(c: Codec, files: Files, ghost nodeId: seq<byte>, ghost segs: Log)
    returns (res: Result<Bounds, WalError>)
    ensures Lawful(c) && Holds(c, nodeId, files, segs) ==> res == Success(BoundsOf(c, segs))
  {
    hide ReadSegment, Image, Stored, WholeSegment, EntriesAfter, Flat, RecordsOf, MaxLsn;
    var ids := SegmentIds(files);
    ghost var ok := Lawful(c) && Holds(c, nodeId, files, segs);
    if ok { ListingIsIds(c, nodeId, files, segs, ids); }
    var floor: Option<Position>, tail: Option<Position> := None, None;
    var maxLsn := 0;
    var lastSegment: Option<(nat, nat)> := None;
    ghost var seen: seq<Entry> := [];
    NoSegments(c);
    assert segs[..0] == [];
    for n := 0 to |ids|
      invariant floor == FloorOf(seen) && tail == EndOf(seen) && maxLsn == MaxLsn(RecordsOf(seen))
      invariant lastSegment == if n == 0 then None else Some((ids[n - 1], |files[ids[n - 1]]|))
      invariant ok ==> seen == EntriesAfter(c, segs[..n], None) && RecordsOf(seen) == Flat(segs[..n])
    {
      var id := ids[n];
      lastSegment := Some((id, |files[id]|));
      var read := ReadSegmentEntriesAfter(c, files[id], id, SEGMENT_HEADER_LEN, None);
      if ok { NextSegment(c, nodeId, files, segs, ids, n); }
      if read.Failure? { return Failure(read.error); }
      floor, tail, maxLsn := BoundsOfEntries(read.value, floor, tail, maxLsn, seen);
      RecordsOfConcat(seen, read.value);
      seen := seen + read.value;
    }
    assert ok ==> segs[..|ids|] == segs;
    if lastSegment.Some? {
      var (segment, offset) := lastSegment.value;
      if tail.None? || segment > tail.value.segment || offset > tail.value.offset {
        tail := Some(Position(maxLsn, segment, offset));
      }
    }
    if ok && segs != [] { LastFileLen(c, nodeId, files, segs); }
    return Success(Bounds(floor, tail));
  }

  lemma NoSegments(c: Codec)
    ensures EntriesAfter(c, [], None) == [] && Flat([]) == [] && RecordsOf([]) == [] && MaxLsn([]) == 0
  {
  }

  lemma OneMoreRecord(seen: seq<Entry>, entry: Entry)
    ensures MaxLsn(RecordsOf(seen + [entry])) == Max(MaxLsn(RecordsOf(seen)), entry.record.lsn)
  {
    var all := RecordsOf(seen + [entry]);
    assert all[..|all| - 1] == RecordsOf(seen);
  }

  lemma LastFileLen(c: Codec, nodeId: seq<byte>, files: Files, segs: Log)
    requires Holds(c, nodeId, files, segs) && segs != []
    ensures Last(segs).id in files && |files[Last(segs).id]| == FileLen(c, Last(segs))
  {
  }

  /** `recover_next_lsn`. */
  method RecoverNextLsn(c: Codec, files: Files, checkpoint: Option<Position>, ghost nodeId: seq<byte>, ghost segs: Log)
    returns (res: Result<nat, WalError>)
    ensures Lawful(c) && Holds(c, nodeId, files, segs) ==> res == Success(NextLsn(segs, checkpoint))
  {
    hide ReadSegment, Image, Stored, WholeSegment, EntriesAfter, Flat, RecordsOf, MaxLsn;
    var ids := SegmentIds(files);
    ghost var ok := Lawful(c) && Holds(c, nodeId, files, segs);
    if ok { ListingIsIds(c, nodeId, files, segs, ids); }
    var maxLsn := 0;
    NoSegments(c);
    assert segs[..0] == [];
    for n := 0 to |ids|
      invariant ok ==> maxLsn == MaxLsn(Flat(segs[..n]))
    {
      var id := ids[n];
      var read := ReadSegmentEntriesAfter(c, files[id], id, SEGMENT_HEADER_LEN, None);
      if ok { NextSegment(c, nodeId, files, segs, ids, n); }
      if read.Failure? { return Failure(read.error); }
      var m := MaxOfEntries(read.value);
      if ok { MaxLsnConcat(Flat(segs[..n]), segs[n].recs); }
      maxLsn := Max(maxLsn, m);
    }
    assert ok ==> segs[..|ids|] == segs;
    if checkpoint.Some? { maxLsn := Max(maxLsn, checkpoint.value.lsn); }
    return Success(maxLsn + 1);
  }

  method MaxOfEntries(entries: seq<Entry>) returns (m: nat)
    ensures m == MaxLsn(RecordsOf(entries))
  {
    m := 0;
    for n := 0 to |entries|
      invariant m == MaxLsn(RecordsOf(entries[..n]))
    {
      OneMoreRecord(entries[..n], entries[n]);
      assert entries[..n + 1] == entries[..n] + [entries[n]];
      m := Max(m, entries[n].record.lsn);
    }
    assert entries[..|entries|] == entries;
  }

  /** `recover_active_segment_id`. */
  method RecoverActiveSegmentId(files: Files, checkpoint: Option<Position>, ghost c: Codec, ghost nodeId: seq<byte>,
                                ghost segs: Log)
    returns (id: nat)
    ensures Holds(c, nodeId, files, segs) ==> id == ActiveId(segs, checkpoint)
    ensures (forall i :: i in files ==> i <= id) && (checkpoint.Some? ==> checkpoint.value.segment + 1 <= id)
    ensures id in files || id == if checkpoint.Some? then checkpoint.value.segment + 1 else FIRST_SEGMENT_ID
    ensures id !in files && checkpoint.None? ==> files == map[]
  {
    hide Stored, Image, SegmentOk;
    var ids := SegmentIds(files);
    if Holds(c, nodeId, files, segs) { ListingIsIds(c, nodeId, files, segs, ids); }
    if ids == [] {
      id := if checkpoint.Some? then checkpoint.value.segment + 1 else FIRST_SEGMENT_ID;
    } else {
      id := ids[|ids| - 1];
      if checkpoint.Some? { id := Max(id, checkpoint.value.segment + 1); }
    }
  }
}
