/** How appending, creating and truncating files changes the log a directory holds. */
module WalFiles {
  import opened Bytes
  import opened Wrappers
  import opened FrameCodec
  import opened SegmentCodec
  import opened SegmentFile
  import opened SegmentLog
  import opened WalSpec
  import opened LogReader

  /** Record r starts at position p. */
  ghost predicate Stands(c: Codec, segs: Log, r: Record, p: Position) {
    exists k, j :: 0 <= k < |segs| && 0 <= j < |segs[k].recs| && segs[k].recs[j] == r
                   && p == Position(r.lsn, segs[k].id, Offset(c, segs[k].recs, j))
  }

  lemma StandsAt(c: Codec, segs: Log, r: Record, p: Position, k: int, j: int)
    requires 0 <= k < |segs| && 0 <= j < |segs[k].recs| && segs[k].recs[j] == r
    requires p == Position(r.lsn, segs[k].id, Offset(c, segs[k].recs, j))
    ensures Stands(c, segs, r, p)
  {
  }

  /** The segment of this log that a file of the directory belongs to. */
  lemma SegmentOfFile(c: Codec, nodeId: seq<byte>, files: Files, segs: Log, id: nat) returns (k: nat)
    requires Holds(c, nodeId, files, segs) && id in files
    ensures k < |segs| && segs[k].id == id
  {
    hide Stored;
    k :| 0 <= k < |segs| && segs[k].id == id;
  }

  lemma ReplaceLast(c: Codec, nodeId: seq<byte>, files: Files, segs: Log, seg: Segment)
    requires Holds(c, nodeId, files, segs) && segs != []
    requires SegmentOk(c, nodeId, seg) && seg.id == Last(segs).id
    ensures Holds(c, nodeId, files[seg.id := Image(c, nodeId, seg)], Front(segs) + [seg])
  {
    hide Image, SegmentOk;
    var out, now := Front(segs) + [seg], files[seg.id := Image(c, nodeId, seg)];
    ReplacedStored(c, nodeId, files, segs, seg);
    forall id | id in now ensures exists k :: 0 <= k < |out| && out[k].id == id {
      if id == seg.id {
        assert out[|out| - 1] == seg;
      } else {
        var k := SegmentOfFile(c, nodeId, files, segs, id);
        assert out[k] == segs[k];
      }
    }
  }

  lemma ReplacedStored(c: Codec, nodeId: seq<byte>, files: Files, segs: Log, seg: Segment)
    requires Ordered(segs) && Stored(c, nodeId, files, segs) && segs != []
    requires SegmentOk(c, nodeId, seg) && seg.id == Last(segs).id
    ensures Stored(c, nodeId, files[seg.id := Image(c, nodeId, seg)], Front(segs) + [seg])
  {
    hide Image, SegmentOk;
    var out, now := Front(segs) + [seg], files[seg.id := Image(c, nodeId, seg)];
    forall k | 0 <= k < |out|
      ensures SegmentOk(c, nodeId, out[k]) && out[k].id in now && now[out[k].id] == Image(c, nodeId, out[k])
    {
      if k < |segs| - 1 {
        assert out[k] == segs[k] && segs[k].id < segs[|segs| - 1].id;
      } else {
        assert out[k] == seg;
      }
    }
  }

  lemma AddLast(c: Codec, nodeId: seq<byte>, files: Files, segs: Log, seg: Segment)
    requires Holds(c, nodeId, files, segs) && SegmentOk(c, nodeId, seg)
    requires forall k :: 0 <= k < |segs| ==> segs[k].id < seg.id
    ensures seg.id !in files
    ensures Holds(c, nodeId, files[seg.id := Image(c, nodeId, seg)], segs + [seg])
  {
    hide Image, SegmentOk;
    var out, now := segs + [seg], files[seg.id := Image(c, nodeId, seg)];
    forall id | id in now ensures exists k :: 0 <= k < |out| && out[k].id == id {
      if id == seg.id {
        assert out[|segs|].id == id;
      } else {
        var k := SegmentOfFile(c, nodeId, files, segs, id);
        assert out[k].id == id;
      }
    }
  }

  lemma EmptyImage(c: Codec, nodeId: seq<byte>, id: nat, createdAt: nat, start: nat)
    requires |nodeId| <= MAX_NODE_ID_LEN
    ensures Image(c, nodeId, NewSegment(id, createdAt, start)) == Header(c, SegmentHead(id, createdAt, start, nodeId))
  {
    var h := Header(c, SegmentHead(id, createdAt, start, nodeId));
    assert h + [] + [] == h;
  }

  /** The last segment can take r: it is whole, and an empty one was opened for r's LSN. */
  ghost predicate Appendable(segs: Log, lsn: nat) {
    segs != [] && Last(segs).torn == [] && (Last(segs).recs == [] ==> Last(segs).start == lsn)
  }

  /** What the log looks like after `AppendRecord`, apart from the files. */
  lemma AppendRecordShape(c: Codec, segs: Log, r: Record, segmentMax: nat, now: nat)
    requires segs != [] && Last(segs).torn == []
    ensures var out, last := AppendRecord(c, segmentMax, segs, r, now), Last(segs);
            && Last(out).recs != [] && Last(out).torn == []
            && Last(out).recs[|Last(out).recs| - 1] == r
            && Stands(c, out, r, LastFrame(c, out))
            && Flat(out) == Flat(segs) + [r]
            && if Rotates(c, segmentMax, last, r)
               then
                 && Last(out).id == last.id + 1
                 && FileLen(c, Last(out)) == SEGMENT_HEADER_LEN + FrameLen(c, r)
                 && LastFrame(c, out) == Position(r.lsn, last.id + 1, SEGMENT_HEADER_LEN)
               else
                 && Last(out).id == last.id
                 && FileLen(c, Last(out)) == FileLen(c, last) + FrameLen(c, r)
                 && LastFrame(c, out) == Position(r.lsn, last.id, FileLen(c, last))
  {
    var last := Last(segs);
    var out := AppendRecord(c, segmentMax, segs, r, now);
    var seg := if Rotates(c, segmentMax, last, r) then NewSegment(last.id + 1, now, r.lsn) else last;
    PrefixFrames(c, seg.recs, r, |seg.recs|);
    StandsAt(c, out, r, LastFrame(c, out), |out| - 1, |Last(out).recs| - 1);
    hide FrameLen, Flat, Stands;
    FlatLast(segs);
    FlatLast(out);
    if !Rotates(c, segmentMax, last, r) {
      assert Front(out) == Front(segs);
      Assoc(Flat(Front(segs)), last.recs, [r]);
    } else {
      assert Front(out) == segs;
      assert [] + [r] == [r];
    }
  }

  /** Writing a frame's bytes behind the last file is appending its record to the last segment. */
  lemma AppendInPlace(c: Codec, nodeId: seq<byte>, files: Files, segs: Log, r: Record)
    requires Holds(c, nodeId, files, segs) && Appendable(segs, r.lsn) && Encodable(c, r)
    ensures Last(segs).id in files
    ensures Holds(c, nodeId, files[Last(segs).id := files[Last(segs).id] + Frame(c, r)],
                  Front(segs) + [WithRecord(Last(segs), r)])
  {
    var last := Last(segs);
    AppendFrameToImage(c, nodeId, last, r);
    assert SegmentOk(c, nodeId, last);
    WithRecordOk(c, nodeId, last, r);
    hide Image, Frame, FrameLen, Header, SegmentOk;
    ReplaceLast(c, nodeId, files, segs, WithRecord(last, r));
  }

  /** A new file with one frame in it is a new segment. */
  lemma AppendToNewFile(c: Codec, nodeId: seq<byte>, files: Files, segs: Log, r: Record, now: u64)
    requires Holds(c, nodeId, files, segs) && segs != [] && Encodable(c, r)
    requires c.validUtf8(nodeId) && Last(segs).id + 1 < U64_LIMIT
    ensures var id := Last(segs).id + 1;
            && id !in files
            && Holds(c, nodeId, files[id := Header(c, SegmentHead(id, now, r.lsn, nodeId)) + Frame(c, r)],
                     segs + [WithRecord(NewSegment(id, now, r.lsn), r)])
  {
    hide Image, Frame, FrameLen, Header, SegmentOk, Encodable;
    var id := Last(segs).id + 1;
    NewFileImage(c, nodeId, id, now, r);
    AddLast(c, nodeId, files, segs, WithRecord(NewSegment(id, now, r.lsn), r));
  }

  lemma NewFileImage(c: Codec, nodeId: seq<byte>, id: nat, now: u64, r: Record)
    requires Encodable(c, r) && c.validUtf8(nodeId) && |nodeId| <= MAX_NODE_ID_LEN && id < U64_LIMIT
    ensures var seg := WithRecord(NewSegment(id, now, r.lsn), r);
            && SegmentOk(c, nodeId, seg)
            && Image(c, nodeId, seg) == Header(c, SegmentHead(id, now, r.lsn, nodeId)) + Frame(c, r)
  {
    hide Image, Frame, FrameLen, Header;
    var seg := NewSegment(id, now, r.lsn);
    AppendFrameToImage(c, nodeId, seg, r);
    EmptyImage(c, nodeId, id, now, r.lsn);
    WithRecordOk(c, nodeId, seg, r);
  }

  lemma WithRecordOk(c: Codec, nodeId: seq<byte>, seg: Segment, r: Record)
    requires HeadOk(c, HeadOfSegment(nodeId, seg)) && Torn(c, seg.torn) && Encodable(c, r)
    requires forall i :: 0 <= i < |seg.recs| ==> Encodable(c, seg.recs[i])
    requires if seg.recs == [] then seg.start == r.lsn else seg.recs[0].lsn == seg.start
    ensures SegmentOk(c, nodeId, WithRecord(seg, r))
  {
  }

  /** Appending moves no record that already stands in the log. */
  lemma AppendKeepsStanding(c: Codec, segs: Log, r: Record, segmentMax: nat, now: nat, r0: Record, p: Position)
    requires segs != [] && Stands(c, segs, r0, p)
    ensures Stands(c, AppendRecord(c, segmentMax, segs, r, now), r0, p)
  {
    hide FrameLen;
    var out := AppendRecord(c, segmentMax, segs, r, now);
    var k, j :| 0 <= k < |segs| && 0 <= j < |segs[k].recs| && segs[k].recs[j] == r0
                && p == Position(r0.lsn, segs[k].id, Offset(c, segs[k].recs, j));
    PrefixFrames(c, segs[k].recs, r, j);
    StandsAt(c, out, r0, p, k, j);
  }

  // ---- rollback -----------------------------------------------------------------------------

  /** `after` is `before` with bytes added to file `first` and with files first + 1 .. last added. */
  ghost predicate Grown(before: Files, after: Files, first: nat, last: nat) {
    && first in before && first <= last
    && (forall id :: id in before ==> id <= first && id in after)
    && (forall id :: id in before && id != first ==> after[id] == before[id])
    && before[first] <= after[first]
    && (forall id :: id in after ==> id in before || first < id <= last)
  }

  /** `File::set_len`. */
  function SetLen(bytes: seq<byte>, len: nat): seq<byte> {
    if len <= |bytes| then bytes[..len] else bytes + seq(len - |bytes|, _ => 0)
  }

  /** Whatever a failed flush left behind, truncating and removing gives the old directory back. */
  lemma RollbackRestores(before: Files, after: Files, first: nat, last: nat, restored: Files)
    requires Grown(before, after, first, last)
    requires forall id :: id in restored <==> id in after && !(first < id <= last)
    requires forall id :: id in restored ==>
               restored[id] == if id == first then SetLen(after[first], |before[first]|) else after[id]
    ensures restored == before
  {
    assert restored.Keys == before.Keys;
    forall id | id in before ensures restored[id] == before[id] {
      if id == first {
        assert after[first][..|before[first]|] == before[first];
      }
    }
  }

  lemma GrownKeepsFirst(before: Files, after: Files, first: nat, last: nat)
    requires Grown(before, after, first, last)
    ensures first in after && first <= last
  {
  }

  /** A rollback that stops on its way has removed no old file and no old byte. */
  lemma CutKeepsOldBytes(before: Files, after: Files, first: nat, last: nat, stop: nat, cut: bool, left: Files)
    requires Grown(before, after, first, last)
    requires forall id :: id in left <==> id in after && !(first < id < stop)
    requires forall id :: id in left ==>
               left[id] == if id == first && cut then SetLen(after[first], |before[first]|) else after[id]
    ensures Grown(before, left, first, last)
  {
    assert first in left;
    assert before[first] <= left[first] by {
      assert after[first][..|before[first]|] == before[first];
    }
  }

  lemma StayGrown(files: Files, id: nat, extra: seq<byte>)
    requires id in files && forall x :: x in files ==> x <= id
    ensures Grown(files, files, id, id)
    ensures Grown(files, files[id := files[id] + extra], id, id)
  {
  }

  lemma NextGrown(files: Files, id: nat, content: seq<byte>)
    requires id in files && forall x :: x in files ==> x <= id
    ensures Grown(files, files, id, id + 1)
    ensures Grown(files, files[id + 1 := content], id, id + 1)
  {
  }

  lemma GrownTwice(a: Files, b: Files, d: Files, first: nat, middle: nat, last: nat)
    requires Grown(a, b, first, middle) && Grown(b, d, middle, last)
    ensures Grown(a, d, first, last)
  {
  }

  /** The last file is the newest one. */
  lemma FilesOfLog(c: Codec, nodeId: seq<byte>, files: Files, log: Log)
    requires Holds(c, nodeId, files, log) && log != []
    ensures |nodeId| <= MAX_NODE_ID_LEN
    ensures Last(log).id in files && |files[Last(log).id]| == FileLen(c, Last(log))
    ensures forall id :: id in files ==> id <= Last(log).id
  {
    hide SegmentOk, Frames, Offset;
    forall id | id in files ensures id <= Last(log).id {
      var k :| 0 <= k < |log| && log[k].id == id;
    }
  }

  // ---- start-up -----------------------------------------------------------------------------

  /** A file `ensure_segment_file` has just created scans as an empty segment. */
  lemma NewSegmentScans(c: Codec, nodeId: seq<byte>, id: nat, now: u64, start: nat)
    requires Lawful(c) && HeadOk(c, SegmentHead(id, now, start, nodeId))
    ensures var h := Header(c, SegmentHead(id, now, start, nodeId));
            && SegmentOk(c, nodeId, NewSegment(id, now, start)) && h == Image(c, nodeId, NewSegment(id, now, start))
            && Scan(c, h, id) == Success(SegmentScan([], SEGMENT_HEADER_LEN))
            && SetLen(h, SEGMENT_HEADER_LEN) == h
  {
    EmptyImage(c, nodeId, id, now, start);
    ScanIsExact(c, nodeId, NewSegment(id, now, start));
  }

  /** A torn first frame in the last segment was meant to carry that segment's start LSN. */
  ghost predicate TornStartMatches(log: Log, checkpoint: Option<Position>) {
    log != [] && Last(log).id == ActiveId(log, checkpoint) && Last(log).recs == [] && Last(log).torn != []
    ==> Last(log).start == NextLsn(log, checkpoint)
  }

  /** What start-up finds where the active segment should be. */
  lemma ActiveFile(c: Codec, nodeId: seq<byte>, files: Files, log: Log, checkpoint: Option<Position>)
    requires Lawful(c) && Holds(c, nodeId, files, log)
    ensures |nodeId| <= MAX_NODE_ID_LEN
    ensures var id := ActiveId(log, checkpoint);
            && (id in files <==> log != [] && Last(log).id == id)
            && (id in files ==>
                  && ParseHeader(c, files[id]) == Success(HeadOfSegment(nodeId, Last(log)))
                  && |files[id]| == FileLen(c, Last(log)))
  {
    var id := ActiveId(log, checkpoint);
    if log != [] {
      FilesOfLog(c, nodeId, files, log);
      HeaderOfImage(c, nodeId, Last(log));
      assert files[Last(log).id] == Image(c, nodeId, Last(log));
    }
  }

  /** The segment that `Restart` opens anew, if it opens one. */
  predicate OpensNew(c: Codec, log: Log, checkpoint: Option<Position>) {
    || log == [] || Last(log).id != ActiveId(log, checkpoint)
    || (FileLen(c, Last(log)) == SEGMENT_HEADER_LEN && Last(log).start != NextLsn(log, checkpoint))
  }

  lemma RestartWithNew(c: Codec, nodeId: seq<byte>, files: Files, log: Log, checkpoint: Option<Position>, now: u64)
    requires Lawful(c) && c.validUtf8(nodeId) && |nodeId| <= MAX_NODE_ID_LEN && Holds(c, nodeId, files, log)
    requires NextLsn(log, checkpoint) < U64_LIMIT && ActiveId(log, checkpoint) < U64_LIMIT
    requires OpensNew(c, log, checkpoint)
    ensures var id, next := ActiveId(log, checkpoint), NextLsn(log, checkpoint);
            var header := Header(c, SegmentHead(id, now, next, nodeId));
            && Scan(c, header, id) == Success(SegmentScan([], SEGMENT_HEADER_LEN))
            && Last(Restart(c, log, checkpoint, now)) == NewSegment(id, now, next)
            && Holds(c, nodeId, files[id := SetLen(header, SEGMENT_HEADER_LEN)], Restart(c, log, checkpoint, now))
  {
    var id, next := ActiveId(log, checkpoint), NextLsn(log, checkpoint);
    NewSegmentScans(c, nodeId, id, now, next);
    RestartNewShape(c, log, checkpoint, now);
    hide Scan, Image, Header, SegmentOk, NextLsn, SetLen, FileLen, Lawful, HeadOk, Holds, Restart, OpensNew, ActiveId;
    PutSegment(c, nodeId, files, log, NewSegment(id, now, next));
  }

  lemma RestartNewShape(c: Codec, log: Log, checkpoint: Option<Position>, now: u64)
    requires OpensNew(c, log, checkpoint)
    ensures Restart(c, log, checkpoint, now)
            == WithSegment(log, NewSegment(ActiveId(log, checkpoint), now, NextLsn(log, checkpoint)))
    ensures log != [] ==> Last(log).id <= ActiveId(log, checkpoint)
  {
    hide FileLen, NextLsn;
  }

  /** The log with its last segment replaced, or with a new one behind it. */
  function WithSegment(log: Log, seg: Segment): (out: Log)
    ensures out != [] && Last(out) == seg
  {
    if log == [] || Last(log).id != seg.id then log + [seg] else Front(log) + [seg]
  }

  lemma PutSegment(c: Codec, nodeId: seq<byte>, files: Files, log: Log, seg: Segment)
    requires Holds(c, nodeId, files, log) && SegmentOk(c, nodeId, seg)
    requires log != [] ==> Last(log).id <= seg.id
    ensures Holds(c, nodeId, files[seg.id := Image(c, nodeId, seg)], WithSegment(log, seg))
  {
    hide Image, SegmentOk, Stored;
    if log == [] || Last(log).id != seg.id {
      forall k | 0 <= k < |log| ensures log[k].id < seg.id { assert log[k].id <= Last(log).id; }
      AddLast(c, nodeId, files, log, seg);
    } else {
      ReplaceLast(c, nodeId, files, log, seg);
    }
  }

  lemma RestartWithOld(c: Codec, nodeId: seq<byte>, files: Files, log: Log, checkpoint: Option<Position>, now: u64)
    requires Lawful(c) && Holds(c, nodeId, files, log) && !OpensNew(c, log, checkpoint)
    ensures var id, out := ActiveId(log, checkpoint), Restart(c, log, checkpoint, now);
            && id in files && log != [] && Last(log).id == id && Last(out) == Last(log).(torn := [])
            && Scan(c, files[id], id) == Success(SegmentScan(Last(log).recs, FileLen(c, Last(out))))
            && Holds(c, nodeId, files[id := SetLen(files[id], FileLen(c, Last(out)))], out)
  {
    var id, last := ActiveId(log, checkpoint), Last(log);
    hide Scan, Image, SegmentOk, NextLsn, SetLen, Lawful, Offset, FileLen;
    LastFile(c, nodeId, files, log);
    ReplaceLast(c, nodeId, files, log, last.(torn := []));
  }

  lemma LastFile(c: Codec, nodeId: seq<byte>, files: Files, log: Log)
    requires Lawful(c) && Holds(c, nodeId, files, log) && log != []
    ensures var last := Last(log);
            var repaired, end := last.(torn := []), Offset(c, last.recs, |last.recs|);
            && last.id in files && SegmentOk(c, nodeId, repaired) && end == FileLen(c, repaired)
            && Scan(c, files[last.id], last.id) == Success(SegmentScan(last.recs, end))
            && SetLen(files[last.id], end) == Image(c, nodeId, repaired)
  {
    var last := Last(log);
    assert SegmentOk(c, nodeId, last) && files[last.id] == Image(c, nodeId, last);
    hide Scan, Image, SegmentOk;
    ScanIsExact(c, nodeId, last);
    RepairIsExact(c, nodeId, last);
    OffsetsGrow(c, last.recs, 0, |last.recs|);
    CutIsSetLen(files[last.id], Offset(c, last.recs, |last.recs|));
  }

  /** Ensuring the active file and truncating it where its scan ends is `Restart` on the log. */
  lemma RestartHolds(c: Codec, nodeId: seq<byte>, files: Files, log: Log, checkpoint: Option<Position>, now: u64,
                     made: Files)
    requires Lawful(c) && c.validUtf8(nodeId) && |nodeId| <= MAX_NODE_ID_LEN && Holds(c, nodeId, files, log)
    requires NextLsn(log, checkpoint) < U64_LIMIT && ActiveId(log, checkpoint) < U64_LIMIT
    requires made == if OpensNew(c, log, checkpoint)
                     then files[ActiveId(log, checkpoint) :=
                            Header(c, SegmentHead(ActiveId(log, checkpoint), now, NextLsn(log, checkpoint), nodeId))]
                     else files
    ensures var id, out := ActiveId(log, checkpoint), Restart(c, log, checkpoint, now);
            && id in made && Scan(c, made[id], id).Success?
            && Last(out).id == id && Last(out).torn == []
            && Scan(c, made[id], id).value.validOffset == FileLen(c, Last(out))
            && Holds(c, nodeId, made[id := SetLen(made[id], FileLen(c, Last(out)))], out)
  {
    hide Scan, Header, SetLen, NextLsn, ActiveId, Holds, Lawful, OpensNew, Restart;
    var id := ActiveId(log, checkpoint);
    if OpensNew(c, log, checkpoint) {
      RestartWithNew(c, nodeId, files, log, checkpoint, now);
      assert made[id := SetLen(made[id], SEGMENT_HEADER_LEN)] == files[id := SetLen(made[id], SEGMENT_HEADER_LEN)];
    } else {
      RestartWithOld(c, nodeId, files, log, checkpoint, now);
    }
  }

  /** After start-up the next frame can go straight into the last segment. */
  lemma RestartAppendable(c: Codec, log: Log, checkpoint: Option<Position>, now: nat)
    requires TornStartMatches(log, checkpoint)
    ensures NextLsn(log, checkpoint) >= 1
    ensures Appendable(Restart(c, log, checkpoint, now), NextLsn(log, checkpoint))
  {
  }

  lemma CutIsSetLen(bytes: seq<byte>, len: nat)
    requires len <= |bytes|
    ensures SetLen(bytes, len) == bytes[..len]
  {
  }

  // ---- cleanup --------------------------------------------------------------------------------

  /** Removing segments' files is removing the segments. */
  lemma {:induction false} WithoutOne(segs: Log, gone: set<nat>, id: nat)
    ensures Without(Without(segs, gone), {id}) == Without(segs, gone + {id})
  {
    if segs != [] {
      WithoutOne(segs[1..], gone, id);
      var rest := Without(segs[1..], gone);
      assert Without([segs[0]] + rest, {id}) == (if segs[0].id == id then [] else [segs[0]]) + Without(rest, {id}) by {
        assert ([segs[0]] + rest)[1..] == rest;
      }
      assert [] + rest == rest;
    }
  }

  lemma {:induction false} WithoutPart(segs: Log, gone: set<nat>)
    ensures forall seg :: seg in Without(segs, gone) <==> seg in segs && seg.id !in gone
    ensures Ordered(segs) ==> Ordered(Without(segs, gone))
  {
    if segs != [] {
      var rest := segs[1..];
      WithoutPart(rest, gone);
      assert segs == [segs[0]] + rest;
      if Ordered(segs) {
        forall j | 0 <= j < |Without(rest, gone)| ensures segs[0].id < Without(rest, gone)[j].id {
          assert Without(rest, gone)[j] in rest;
          var k :| 0 <= k < |rest| && rest[k] == Without(rest, gone)[j];
          assert rest[k] == segs[k + 1];
        }
      }
    }
  }

  lemma RemovedFilesStored(c: Codec, nodeId: seq<byte>, files: Files, segs: Log, gone: set<nat>)
    requires Holds(c, nodeId, files, segs)
    ensures Stored(c, nodeId, files - gone, Without(segs, gone))
  {
    hide Image, SegmentOk, Without;
    var out, left := Without(segs, gone), files - gone;
    WithoutPart(segs, gone);
    forall k | 0 <= k < |out|
      ensures SegmentOk(c, nodeId, out[k]) && out[k].id in left && left[out[k].id] == Image(c, nodeId, out[k])
    {
      assert out[k] in out && out[k] in segs;
      var j :| 0 <= j < |segs| && segs[j] == out[k];
    }
  }

  lemma RemovedFilesHold(c: Codec, nodeId: seq<byte>, files: Files, segs: Log, gone: set<nat>)
    requires Holds(c, nodeId, files, segs)
    ensures Holds(c, nodeId, files - gone, Without(segs, gone))
  {
    hide Image, SegmentOk, Without, Stored;
    var out, left := Without(segs, gone), files - gone;
    WithoutPart(segs, gone);
    RemovedFilesStored(c, nodeId, files, segs, gone);
    forall id | id in left ensures exists k :: 0 <= k < |out| && out[k].id == id {
      var j :| 0 <= j < |segs| && segs[j].id == id;
      assert segs[j] in out;
      var k :| 0 <= k < |out| && out[k] == segs[j];
    }
  }

  /** What `scan_segment` says about one listed file decides whether it is covered. */
  lemma CoveredFile(c: Codec, nodeId: seq<byte>, files: Files, segs: Log, id: nat, lsn: nat, keepFrom: nat)
    requires Lawful(c) && Holds(c, nodeId, files, segs) && id in files
    ensures var scan := Scan(c, files[id], id);
            && scan.Success?
            && (id in CoveredIds(segs, lsn, keepFrom) <==> id < keepFrom && MaxLsn(scan.value.records) <= lsn)
  {
    hide Scan, Image, SegmentOk, MaxLsn;
    var k :| 0 <= k < |segs| && segs[k].id == id;
    assert SegmentOk(c, nodeId, segs[k]) && files[id] == Image(c, nodeId, segs[k]);
    ScanIsExact(c, nodeId, segs[k]);
    if id in CoveredIds(segs, lsn, keepFrom) {
      var j :| 0 <= j < |segs| && Covered(segs[j], lsn, keepFrom) && segs[j].id == id;
      assert j == k;
    }
  }
}
