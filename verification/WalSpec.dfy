/** What the WAL operations of src/wal/mod.rs do to the log, stated on segments instead of files. */
module WalSpec {
  import opened Bytes
  import opened Wrappers
  import opened FrameCodec
  import opened SegmentCodec
  import opened SegmentFile
  import opened SegmentLog

  const FIRST_SEGMENT_ID := 1

  function Max(a: nat, b: nat): nat { if a < b then b else a }

  function MaxLsn(recs: seq<Record>): nat {
    if recs == [] then 0 else Max(MaxLsn(recs[..|recs| - 1]), recs[|recs| - 1].lsn)
  }

  // ---- appending ----------------------------------------------------------------------------

  /** The roll-over test of `append_frame_locked`. */
  predicate Rotates(c: Codec, segmentMax: nat, seg: Segment, r: Record) {
    FileLen(c, seg) > SEGMENT_HEADER_LEN && FileLen(c, seg) + FrameLen(c, r) > segmentMax
  }

  function NewSegment(id: nat, createdAt: nat, start: nat): Segment {
    Segment(id, createdAt, start, [], [])
  }

  function WithRecord(seg: Segment, r: Record): Segment {
    seg.(recs := seg.recs + [r])
  }

  /** `append_frame_locked`: a frame goes to the active segment, or to a new one when it does not fit. */
  function AppendRecord(c: Codec, segmentMax: nat, segs: Log, r: Record, now: nat): (out: Log)
    requires segs != []
    ensures out != []
  {
    if Rotates(c, segmentMax, Last(segs), r)
    then segs + [WithRecord(NewSegment(Last(segs).id + 1, now, r.lsn), r)]
    else Front(segs) + [WithRecord(Last(segs), r)]
  }

  /** The frames of one flush, in buffer order; `clock` gives each record's time of writing. */
  function AppendAll(c: Codec, segmentMax: nat, segs: Log, recs: seq<Record>, clock: nat -> u64): (out: Log)
    requires segs != []
    ensures out != []
  {
    if recs == [] then segs
    else
      var r := recs[|recs| - 1];
      AppendRecord(c, segmentMax, AppendAll(c, segmentMax, segs, recs[..|recs| - 1], clock), r, clock(r.lsn))
  }

  /** Where the newest frame of the log starts. */
  function LastFrame(c: Codec, segs: Log): Position
    requires segs != [] && Last(segs).recs != []
  {
    var seg := Last(segs);
    Position(seg.recs[|seg.recs| - 1].lsn, seg.id, Offset(c, seg.recs, |seg.recs| - 1))
  }

  // ---- bounds, recovery, cleanup ------------------------------------------------------------

  datatype Bounds = Bounds(floor: Option<Position>, tail: Option<Position>)

  /** `read_wal_bounds`. */
  function BoundsOf(c: Codec, segs: Log): Bounds {
    var entries := EntriesAfter(c, segs, None);
    var floor := if entries == [] then None else Some(entries[0].position);
    if segs == [] then Bounds(floor, None)
    else
      var end := Position(MaxLsn(Flat(segs)), Last(segs).id, FileLen(c, Last(segs)));
      if entries == [] then Bounds(floor, Some(end))
      else
        var next := entries[|entries| - 1].nextPosition;
        Bounds(floor, Some(if end.segment > next.segment || end.offset > next.offset then end else next))
  }

  /** `recover_next_lsn`. */
  function NextLsn(segs: Log, checkpoint: Option<Position>): nat {
    Max(MaxLsn(Flat(segs)), if checkpoint.Some? then checkpoint.value.lsn else 0) + 1
  }

  /** `recover_active_segment_id`. */
  function ActiveId(segs: Log, checkpoint: Option<Position>): nat {
    var next := if checkpoint.Some? then Some(checkpoint.value.segment + 1) else None;
    if segs == [] then (if next.Some? then next.value else FIRST_SEGMENT_ID)
    else if next.Some? then Max(Last(segs).id, next.value)
    else Last(segs).id
  }

  /** What `WalWriter::new` does to the directory: `ensure_segment_file`, then `repair_segment_tail`. */
  function Restart(c: Codec, segs: Log, checkpoint: Option<Position>, now: nat): (out: Log)
    ensures out != []
  {
    var id, next := ActiveId(segs, checkpoint), NextLsn(segs, checkpoint);
    if segs == [] || Last(segs).id != id then segs + [NewSegment(id, now, next)]
    else if FileLen(c, Last(segs)) == SEGMENT_HEADER_LEN && Last(segs).start != next
    then Front(segs) + [NewSegment(id, now, next)]
    else Front(segs) + [Last(segs).(torn := [])]
  }

  /** The test of `remove_segments_covered_by_checkpoint`. */
  predicate Covered(seg: Segment, lsn: nat, keepFrom: nat) {
    seg.id < keepFrom && MaxLsn(seg.recs) <= lsn
  }

  ghost predicate NoneAbove(recs: seq<Record>, lsn: nat) {
    forall r :: r in recs ==> r.lsn <= lsn
  }

  lemma {:induction false} MaxLsnIsHighest(recs: seq<Record>, lsn: nat)
    ensures MaxLsn(recs) <= lsn <==> NoneAbove(recs, lsn)
    decreases |recs|
  {
    if recs != [] {
      var front, last := recs[..|recs| - 1], recs[|recs| - 1];
      assert recs == front + [last];
      MaxLsnIsHighest(front, lsn);
    }
  }

  function CoveredIds(segs: Log, lsn: nat, keepFrom: nat): set<nat> {
    set k | 0 <= k < |segs| && Covered(segs[k], lsn, keepFrom) :: segs[k].id
  }

  function Without(segs: Log, gone: set<nat>): Log {
    if segs == [] then []
    else (if segs[0].id in gone then [] else [segs[0]]) + Without(segs[1..], gone)
  }

  /** What a removal that visits the files in this order has removed after n of them. */
  function GoneAfter(covered: set<nat>, listing: seq<nat>, n: nat): set<nat>
    requires n <= |listing|
  {
    set id | id in covered && id in listing[..n]
  }

  /** The first covered file, from place n on, whose removal fails; |listing| if there is none. */
  function FirstFailure(covered: set<nat>, listing: seq<nat>, fails: nat -> bool, n: nat): (m: nat)
    requires n <= |listing|
    ensures n <= m <= |listing|
    ensures m < |listing| ==> listing[m] in covered && fails(listing[m])
    ensures forall i :: n <= i < m ==> !(listing[i] in covered && fails(listing[i]))
    decreases |listing| - n
  {
    if n == |listing| || (listing[n] in covered && fails(listing[n])) then n
    else FirstFailure(covered, listing, fails, n + 1)
  }

  /** `remove_segments_covered_by_checkpoint`. */
  function Uncovered(segs: Log, lsn: nat, keepFrom: nat): Log {
    Without(segs, CoveredIds(segs, lsn, keepFrom))
  }

  lemma {:induction false} MaxLsnBounds(recs: seq<Record>)
    ensures forall i :: 0 <= i < |recs| ==> recs[i].lsn <= MaxLsn(recs)
    ensures recs != [] ==> exists i :: 0 <= i < |recs| && recs[i].lsn == MaxLsn(recs)
  {
    if recs != [] {
      var front := recs[..|recs| - 1];
      MaxLsnBounds(front);
      assert forall i :: 0 <= i < |front| ==> recs[i] == front[i];
      if MaxLsn(recs) != recs[|recs| - 1].lsn {
        assert front == [] ==> MaxLsn(front) == 0;
        var i :| 0 <= i < |front| && front[i].lsn == MaxLsn(front);
        assert recs[i].lsn == MaxLsn(recs);
      }
    }
  }

  lemma {:induction false} MaxLsnConcat(a: seq<Record>, b: seq<Record>)
    ensures MaxLsn(a + b) == Max(MaxLsn(a), MaxLsn(b))
  {
    if b == [] {
      assert a + b == a;
    } else {
      MaxLsnConcat(a, b[..|b| - 1]);
      assert (a + b)[..|a + b| - 1] == a + b[..|b| - 1];
    }
  }
}
