/** One segment file: its frames, the loop that reads them back, and the torn tail a crash leaves. */
module SegmentFile {
  import opened Bytes
  import opened Wrappers
  import opened FrameCodec
  import opened SegmentCodec

  datatype Position = Position(lsn: nat, segment: nat, offset: nat)
  datatype Entry = Entry(position: Position, nextPosition: Position, record: Record)

  /** Entry i carries LSN base + 1 + i in record and positions. */
  ghost predicate Contiguous(entries: seq<Entry>, base: nat) {
    forall i :: 0 <= i < |entries| ==>
      && entries[i].position.lsn == base + 1 + i
      && entries[i].nextPosition.lsn == base + 1 + i
      && entries[i].record.lsn == base + 1 + i
  }

  /** What one segment file holds: whole frames `recs`, then `torn`, the start of an unfinished frame. */
  datatype Segment = Segment(id: nat, createdAt: nat, start: nat, recs: seq<Record>, torn: seq<byte>)

  /** Bytes of the first n frames. */
  function Frames(c: Codec, recs: seq<Record>, n: nat): (s: seq<byte>)
    requires n <= |recs|
    ensures SEGMENT_HEADER_LEN + |s| == Offset(c, recs, n)
  {
    if n == 0 then [] else Frames(c, recs, n - 1) + Frame(c, recs[n - 1])
  }

  /** File offset at which frame n starts. */
  function Offset(c: Codec, recs: seq<Record>, n: nat): (o: nat)
    requires n <= |recs|
    ensures o >= SEGMENT_HEADER_LEN + n
  {
    if n == 0 then SEGMENT_HEADER_LEN else Offset(c, recs, n - 1) + FrameLen(c, recs[n - 1])
  }

  function HeadOfSegment(nodeId: seq<byte>, seg: Segment): SegmentHead {
    SegmentHead(seg.id, seg.createdAt, seg.start, nodeId)
  }

  function Image(c: Codec, nodeId: seq<byte>, seg: Segment): (file: seq<byte>)
    requires |nodeId| <= MAX_NODE_ID_LEN
    ensures |file| == Offset(c, seg.recs, |seg.recs|) + |seg.torn|
  {
    Header(c, HeadOfSegment(nodeId, seg)) + Frames(c, seg.recs, |seg.recs|) + seg.torn
  }

  /** A crash may leave any proper prefix of a frame behind. */
  ghost predicate Torn(c: Codec, tail: seq<byte>) {
    tail == [] || exists r :: Encodable(c, r) && |tail| < FrameLen(c, r) && tail == Frame(c, r)[..|tail|]
  }

  ghost predicate SegmentOk(c: Codec, nodeId: seq<byte>, seg: Segment) {
    && HeadOk(c, HeadOfSegment(nodeId, seg))
    && (forall i :: 0 <= i < |seg.recs| ==> Encodable(c, seg.recs[i]))
    && (seg.recs != [] ==> seg.recs[0].lsn == seg.start)
    && Torn(c, seg.torn)
  }

  function EntryAt(c: Codec, seg: Segment, i: nat): Entry
    requires i < |seg.recs|
  {
    Entry(Position(seg.recs[i].lsn, seg.id, Offset(c, seg.recs, i)),
          Position(seg.recs[i].lsn, seg.id, Offset(c, seg.recs, i + 1)),
          seg.recs[i])
  }

  /** The entries of frames i, i + 1, ..., j - 1. */
  function EntriesOf(c: Codec, seg: Segment, i: nat, j: nat): (es: seq<Entry>)
    requires i <= j <= |seg.recs|
    ensures |es| == j - i
  {
    seq(j - i, k requires 0 <= k < j - i => EntryAt(c, seg, i + k))
  }

  // ---- reading bytes ------------------------------------------------------------------------

  /** The frame loop shared by `read_segment_entries_after` and `scan_segment`. */
  function ReadFrames(c: Codec, file: seq<byte>, id: nat, off: nat, limit: Option<nat>)
    : (res: Result<seq<Entry>, WalError>)
    requires off <= |file|
    decreases |file| - off
  {
    if limit == Some(0) then Success([])
    else
      match ParseFrame(c, file[off..])
      case Incomplete => Success([])
      case Corrupt(e) => Failure(BadFrame(e))
      case Parsed(r, len) =>
        var rest :- ReadFrames(c, file, id, off + len, Less(limit));
        Success([Entry(Position(r.lsn, id, off), Position(r.lsn, id, off + len), r)] + rest)
  }

  function Less(limit: Option<nat>): Option<nat>
    requires limit != Some(0)
  {
    if limit.None? then None else Some(limit.value - 1)
  }

  function EndOffset(entries: seq<Entry>, off: nat): nat {
    if entries == [] then off else entries[|entries| - 1].nextPosition.offset
  }

  /** `read_segment_entries_after`. */
  function ReadSegment(c: Codec, file: seq<byte>, id: nat, off: nat, limit: Option<nat>)
    : Result<seq<Entry>, WalError>
  {
    var header :- ParseHeader(c, file);
    if off < SEGMENT_HEADER_LEN || off > |file| then Failure(BadCheckpointOffset)
    else
      var entries :- ReadFrames(c, file, id, off, limit);
      if off == SEGMENT_HEADER_LEN && entries != [] && entries[0].record.lsn != header.start
      then Failure(StartLsnMismatch)
      else Success(entries)
  }

  /** Each entry is what parses at the end of the one before it. */
  ghost predicate Chained(c: Codec, file: seq<byte>, id: nat, off: nat, entries: seq<Entry>) {
    forall i :: 0 <= i < |entries| ==>
      var e, at := entries[i], if i == 0 then off else entries[i - 1].nextPosition.offset;
      && at <= |file| && ParseFrame(c, file[at..]).Parsed?
      && var Parsed(r, len) := ParseFrame(c, file[at..]);
      e == Entry(Position(r.lsn, id, at), Position(r.lsn, id, at + len), r)
  }

  lemma {:induction false} FramesAreParsed(c: Codec, file: seq<byte>, id: nat, off: nat, limit: Option<nat>)
    requires off <= |file| && ReadFrames(c, file, id, off, limit).Success?
    ensures var entries := ReadFrames(c, file, id, off, limit).value;
            && Chained(c, file, id, off, entries) && EndOffset(entries, off) <= |file|
            && (limit.Some? ==> |entries| <= limit.value)
            && (limit == Some(|entries|) || ParseFrame(c, file[EndOffset(entries, off)..]).Incomplete?)
    decreases |file| - off
  {
    hide ParseFrame;
    if limit != Some(0) && ParseFrame(c, file[off..]).Parsed? {
      var len := ParseFrame(c, file[off..]).len;
      ParsedFits(c, file[off..]);
      FramesAreParsed(c, file, id, off + len, Less(limit));
      var rest := ReadFrames(c, file, id, off + len, Less(limit)).value;
      var entries := ReadFrames(c, file, id, off, limit).value;
      assert forall i :: 0 < i < |entries| ==> entries[i] == rest[i - 1];
    }
  }

  lemma ParsedFits(c: Codec, s: seq<byte>)
    ensures ParseFrame(c, s).Parsed? ==> 0 < ParseFrame(c, s).len <= |s|
  {
  }

  /** Whatever bytes a file holds: a reading that succeeds has a header in order and an offset inside the file, its
      entries are the frames one after the other up to the limit or to where no whole frame follows, and from the header
      on the first of them has the header's `start_lsn`. Nothing damaged is skipped. */
  lemma ReadingIsChecked(c: Codec, file: seq<byte>, id: nat, off: nat, limit: Option<nat>)
    requires ReadSegment(c, file, id, off, limit).Success?
    ensures var entries := ReadSegment(c, file, id, off, limit).value;
            && ParseHeader(c, file).Success? && SEGMENT_HEADER_LEN <= off <= |file|
            && Chained(c, file, id, off, entries) && EndOffset(entries, off) <= |file|
            && (limit == Some(|entries|) || ParseFrame(c, file[EndOffset(entries, off)..]).Incomplete?)
            && (off == SEGMENT_HEADER_LEN && entries != [] ==>
                  entries[0].record.lsn == ParseHeader(c, file).value.start)
  {
    hide ParseFrame, ParseHeader, Chained, ReadFrames;
    FramesAreParsed(c, file, id, off, limit);
  }

  datatype SegmentScan = SegmentScan(records: seq<Record>, validOffset: nat)

  function RecordsOf(entries: seq<Entry>): (rs: seq<Record>)
    ensures |rs| == |entries|
  {
    seq(|entries|, i requires 0 <= i < |entries| => entries[i].record)
  }

  /** `scan_segment`. */
  function Scan(c: Codec, file: seq<byte>, id: nat): Result<SegmentScan, WalError> {
    var entries :- ReadSegment(c, file, id, SEGMENT_HEADER_LEN, None);
    Success(SegmentScan(RecordsOf(entries), EndOffset(entries, SEGMENT_HEADER_LEN)))
  }

  function Prepend(entries: seq<Entry>, rest: Result<seq<Entry>, WalError>): Result<seq<Entry>, WalError> {
    if rest.Success? then Success(entries + rest.value) else rest
  }

  lemma PrependTwice(a: seq<Entry>, b: seq<Entry>, rest: Result<seq<Entry>, WalError>)
    ensures Prepend(a, Prepend(b, rest)) == Prepend(a + b, rest)
    ensures Prepend([], rest) == rest && Prepend(a, Success([])) == Success(a)
  {
    if rest.Success? {
      assert a + (b + rest.value) == a + b + rest.value;
      assert [] + rest.value == rest.value;
    }
    assert a + [] == a;
  }

  /** One turn of the frame loop. */
  lemma ReadFramesStep(c: Codec, file: seq<byte>, id: nat, off: nat, left: Option<nat>, entries: seq<Entry>)
    requires off <= |file|
    ensures var whole := Prepend(entries, ReadFrames(c, file, id, off, left));
            if left == Some(0) then whole == Success(entries)
            else
              match ParseFrame(c, file[off..])
              case Incomplete => whole == Success(entries)
              case Corrupt(e) => whole == Failure(BadFrame(e))
              case Parsed(r, len) =>
                var more := entries + [Entry(Position(r.lsn, id, off), Position(r.lsn, id, off + len), r)];
                whole == Prepend(more, ReadFrames(c, file, id, off + len, Less(left)))
  {
    hide ParseFrame;
    PrependTwice(entries, [], Success([]));
    var p := ParseFrame(c, file[off..]);
    if left != Some(0) && p.Parsed? {
      var r := p.record;
      PrependTwice(entries, [Entry(Position(r.lsn, id, off), Position(r.lsn, id, off + p.len), r)],
                   ReadFrames(c, file, id, off + p.len, Less(left)));
    }
  }

  /** `read_segment_entries_after`, as the loop the source runs. */
  method ReadSegmentEntriesAfter(c: Codec, file: seq<byte>, id: nat, startOffset: nat, limit: Option<nat>)
    returns (res: Result<seq<Entry>, WalError>)
    ensures res == ReadSegment(c, file, id, startOffset, limit)
  {
    hide ParseFrame, ParseHeader, ReadFrames;
    var header := ParseHeader(c, file);
    if header.Failure? { return Failure(header.error); }
    if startOffset < SEGMENT_HEADER_LEN || startOffset > |file| { return Failure(BadCheckpointOffset); }
    var entries: seq<Entry> := [];
    var validOffset := startOffset;
    var firstLsn: Option<nat> := None;
    ghost var left := limit;
    ghost var whole := ReadFrames(c, file, id, startOffset, limit);
    PrependTwice([], [], whole);
    while true
      invariant startOffset <= validOffset <= |file|
      invariant left == if limit.None? then None else Some(limit.value - |entries|)
      invariant limit.Some? ==> |entries| <= limit.value
      invariant whole == Prepend(entries, ReadFrames(c, file, id, validOffset, left))
      invariant firstLsn == if entries == [] then None else Some(entries[0].record.lsn)
      decreases |file| - validOffset
    {
      ReadFramesStep(c, file, id, validOffset, left, entries);
      if limit.Some? && |entries| >= limit.value { break; }
      var frame := ParseFrame(c, file[validOffset..]);
      if frame.Incomplete? { break; }
      if frame.Corrupt? { return Failure(BadFrame(frame.error)); }
      var record, next := frame.record, validOffset + frame.len;
      if firstLsn.None? { firstLsn := Some(record.lsn); }
      entries := entries + [Entry(Position(record.lsn, id, validOffset), Position(record.lsn, id, next), record)];
      left := Less(left);
      validOffset := next;
    }
    if startOffset == SEGMENT_HEADER_LEN && firstLsn.Some? && firstLsn.value != header.value.start {
      return Failure(StartLsnMismatch);
    }
    return Success(entries);
  }

  lemma Assoc<T>(a: seq<T>, b: seq<T>, d: seq<T>)
    ensures a + (b + d) == (a + b) + d
  {
  }

  // ---- reading back what was written --------------------------------------------------------

  lemma {:induction false} FrameInFrames(c: Codec, recs: seq<Record>, i: nat, n: nat)
    requires i < n <= |recs|
    ensures Offset(c, recs, i + 1) <= Offset(c, recs, n)
    ensures Frames(c, recs, n)[Offset(c, recs, i) - SEGMENT_HEADER_LEN..Offset(c, recs, i + 1) - SEGMENT_HEADER_LEN]
            == Frame(c, recs[i])
  {
    hide Frame;
    if i + 1 < n {
      FrameInFrames(c, recs, i, n - 1);
    }
  }

  lemma {:induction false} OffsetsGrow(c: Codec, recs: seq<Record>, i: nat, j: nat)
    requires i <= j <= |recs|
    ensures Offset(c, recs, i) + (j - i) <= Offset(c, recs, j)
  {
    if i < j {
      OffsetsGrow(c, recs, i, j - 1);
    }
  }

  /** Frame i sits in the file at its offset, followed by frame i + 1. */
  lemma FrameInImage(c: Codec, nodeId: seq<byte>, seg: Segment, i: nat)
    requires |nodeId| <= MAX_NODE_ID_LEN && i < |seg.recs|
    ensures Offset(c, seg.recs, i + 1) <= |Image(c, nodeId, seg)|
    ensures Image(c, nodeId, seg)[Offset(c, seg.recs, i)..]
            == Frame(c, seg.recs[i]) + Image(c, nodeId, seg)[Offset(c, seg.recs, i + 1)..]
  {
    hide Header, Frame, Offset;
    var n := |seg.recs|;
    var h, f, t := Header(c, HeadOfSegment(nodeId, seg)), Frames(c, seg.recs, n), seg.torn;
    var a, b := Offset(c, seg.recs, i), Offset(c, seg.recs, i + 1);
    FrameInFrames(c, seg.recs, i, n);
    OffsetsGrow(c, seg.recs, i, i + 1);
    CutMiddle(h, f, t, a, b);
  }

  lemma CutMiddle(h: seq<byte>, f: seq<byte>, t: seq<byte>, a: nat, b: nat)
    requires |h| <= a <= b <= |h| + |f|
    ensures (h + f + t)[a..] == f[a - |h|..b - |h|] + (h + f + t)[b..]
  {
  }

  lemma TornEndIsIncomplete(c: Codec, nodeId: seq<byte>, seg: Segment)
    requires Lawful(c) && SegmentOk(c, nodeId, seg)
    ensures Image(c, nodeId, seg)[Offset(c, seg.recs, |seg.recs|)..] == seg.torn
    ensures ParseFrame(c, seg.torn) == Incomplete
  {
    assert Image(c, nodeId, seg)[Offset(c, seg.recs, |seg.recs|)..] == seg.torn;
    if seg.torn != [] {
      var r :| Encodable(c, r) && |seg.torn| < FrameLen(c, r) && seg.torn == Frame(c, r)[..|seg.torn|];
      TornFrameIsIncomplete(c, r, |seg.torn|);
    }
  }

  lemma ParseFrameOfImage(c: Codec, nodeId: seq<byte>, seg: Segment, i: nat)
    requires Lawful(c) && SegmentOk(c, nodeId, seg) && i < |seg.recs|
    ensures Offset(c, seg.recs, i + 1) <= |Image(c, nodeId, seg)|
    ensures ParseFrame(c, Image(c, nodeId, seg)[Offset(c, seg.recs, i)..])
            == Parsed(seg.recs[i], FrameLen(c, seg.recs[i]))
  {
    hide Image, Frame, ParseFrame, Torn, FrameLen;
    FrameInImage(c, nodeId, seg, i);
    FrameRoundTrips(c, seg.recs[i], Image(c, nodeId, seg)[Offset(c, seg.recs, i + 1)..]);
  }

  lemma EntryFields(c: Codec, seg: Segment, i: nat)
    requires i < |seg.recs|
    ensures var off, r := Offset(c, seg.recs, i), seg.recs[i];
            EntryAt(c, seg, i)
            == Entry(Position(r.lsn, seg.id, off), Position(r.lsn, seg.id, off + FrameLen(c, r)), r)
  {
  }

  lemma OneMoreEntry(c: Codec, seg: Segment, i: nat, j: nat)
    requires i < j <= |seg.recs|
    ensures EntriesOf(c, seg, i, j) == [EntryAt(c, seg, i)] + EntriesOf(c, seg, i + 1, j)
  {
  }

  function Reach(seg: Segment, i: nat, limit: Option<nat>): (j: nat)
    requires i <= |seg.recs|
    ensures i <= j <= |seg.recs|
  {
    if limit.None? || i + limit.value > |seg.recs| then |seg.recs| else i + limit.value
  }

  /** Parsing at the offset of frame i gives that frame; behind the last frame it gives nothing. */
  ghost predicate ParsesAt(c: Codec, file: seq<byte>, seg: Segment, i: nat)
    requires i <= |seg.recs|
  {
    && Offset(c, seg.recs, i) <= |file|
    && if i == |seg.recs| then ParseFrame(c, file[Offset(c, seg.recs, i)..]) == Incomplete
       else
         && Offset(c, seg.recs, i + 1) == Offset(c, seg.recs, i) + FrameLen(c, seg.recs[i]) <= |file|
         && ParseFrame(c, file[Offset(c, seg.recs, i)..]) == Parsed(seg.recs[i], FrameLen(c, seg.recs[i]))
  }

  ghost predicate Parses(c: Codec, file: seq<byte>, seg: Segment) {
    forall i :: 0 <= i <= |seg.recs| ==> ParsesAt(c, file, seg, i)
  }

  lemma ImageParsesAt(c: Codec, nodeId: seq<byte>, seg: Segment, i: nat)
    requires Lawful(c) && SegmentOk(c, nodeId, seg) && i <= |seg.recs|
    ensures ParsesAt(c, Image(c, nodeId, seg), seg, i)
  {
    if i < |seg.recs| {
      ParseFrameOfImage(c, nodeId, seg, i);
      NextOffset(c, seg.recs, i);
    } else {
      TornEndIsIncomplete(c, nodeId, seg);
    }
  }

  lemma ImageParses(c: Codec, nodeId: seq<byte>, seg: Segment)
    requires Lawful(c) && SegmentOk(c, nodeId, seg)
    ensures Parses(c, Image(c, nodeId, seg), seg)
  {
    forall i | 0 <= i <= |seg.recs| ensures ParsesAt(c, Image(c, nodeId, seg), seg, i) {
      ImageParsesAt(c, nodeId, seg, i);
    }
  }

  lemma NextOffset(c: Codec, recs: seq<Record>, i: nat)
    requires i < |recs|
    ensures Offset(c, recs, i + 1) == Offset(c, recs, i) + FrameLen(c, recs[i])
  {
  }

  /** One turn of the frame loop at frame i. */
  lemma TurnAt(c: Codec, file: seq<byte>, seg: Segment, i: nat, limit: Option<nat>)
    requires i <= |seg.recs| && Parses(c, file, seg)
    ensures Offset(c, seg.recs, i) <= |file|
    ensures var whole := ReadFrames(c, file, seg.id, Offset(c, seg.recs, i), limit);
            if limit == Some(0) || i == |seg.recs| then whole == Success([])
            else
              && Offset(c, seg.recs, i + 1) <= |file|
              && whole == Prepend([EntryAt(c, seg, i)],
                                  ReadFrames(c, file, seg.id, Offset(c, seg.recs, i + 1), Less(limit)))
  {
    hide FrameLen, ParseFrame, Offset, ReadFrames;
    assert ParsesAt(c, file, seg, i);
    var off := Offset(c, seg.recs, i);
    PrependTwice([], [], ReadFrames(c, file, seg.id, off, limit));
    ReadFramesStep(c, file, seg.id, off, limit, []);
    if i < |seg.recs| {
      EntryFields(c, seg, i);
      assert [] + [EntryAt(c, seg, i)] == [EntryAt(c, seg, i)];
    }
  }

  lemma {:induction false} ReadFramesThatParse(c: Codec, file: seq<byte>, seg: Segment, i: nat, limit: Option<nat>)
    requires i <= |seg.recs| && Parses(c, file, seg)
    ensures Offset(c, seg.recs, i) <= |file|
    ensures ReadFrames(c, file, seg.id, Offset(c, seg.recs, i), limit)
            == Success(EntriesOf(c, seg, i, Reach(seg, i, limit)))
    decreases |seg.recs| - i
  {
    hide Parses, Offset, ReadFrames, EntryAt, EntriesOf;
    TurnAt(c, file, seg, i, limit);
    if limit != Some(0) && i < |seg.recs| {
      ReadFramesThatParse(c, file, seg, i + 1, Less(limit));
      OneMoreEntry(c, seg, i, Reach(seg, i, limit));
    }
  }

  /** From the start of frame i, the loop returns exactly the whole frames from i on, up to the limit. */
  lemma ReadFramesOfImage(c: Codec, nodeId: seq<byte>, seg: Segment, i: nat, limit: Option<nat>)
    requires Lawful(c) && SegmentOk(c, nodeId, seg) && i <= |seg.recs|
    ensures Offset(c, seg.recs, i) <= |Image(c, nodeId, seg)|
    ensures ReadFrames(c, Image(c, nodeId, seg), seg.id, Offset(c, seg.recs, i), limit)
            == Success(EntriesOf(c, seg, i, Reach(seg, i, limit)))
  {
    hide Parses, Offset, ReadFrames, EntryAt, EntriesOf;
    ImageParses(c, nodeId, seg);
    ReadFramesThatParse(c, Image(c, nodeId, seg), seg, i, limit);
  }

  lemma ReadSegmentOfImage(c: Codec, nodeId: seq<byte>, seg: Segment, i: nat, limit: Option<nat>)
    requires Lawful(c) && SegmentOk(c, nodeId, seg) && i <= |seg.recs|
    ensures ReadSegment(c, Image(c, nodeId, seg), seg.id, Offset(c, seg.recs, i), limit)
            == Success(EntriesOf(c, seg, i, Reach(seg, i, limit)))
  {
    hide Image, ParseHeader, ReadFrames, SegmentOk, Lawful, Offset, EntriesOf;
    ReadFramesOfImage(c, nodeId, seg, i, limit);
    HeaderOfImage(c, nodeId, seg);
    NoFrames(c, seg.recs);
    if i == 0 && Reach(seg, i, limit) > 0 { FirstEntry(c, nodeId, seg, Reach(seg, i, limit)); }
  }

  lemma FirstEntry(c: Codec, nodeId: seq<byte>, seg: Segment, j: nat)
    requires SegmentOk(c, nodeId, seg) && 0 < j <= |seg.recs|
    ensures EntriesOf(c, seg, 0, j)[0].record.lsn == seg.start
  {
  }

  lemma HeaderOfImage(c: Codec, nodeId: seq<byte>, seg: Segment)
    requires Lawful(c) && SegmentOk(c, nodeId, seg)
    ensures ParseHeader(c, Image(c, nodeId, seg)) == Success(HeadOfSegment(nodeId, seg))
  {
    var h := HeadOfSegment(nodeId, seg);
    var frames := Frames(c, seg.recs, |seg.recs|);
    HeaderRoundTrips(c, h, frames + seg.torn);
    hide ParseHeader, Header, Frames, HeadOk, Torn, Lawful, Encodable, SegmentOk, Offset;
    Assoc(Header(c, h), frames, seg.torn);
  }

  lemma NoFrames(c: Codec, recs: seq<Record>)
    ensures Offset(c, recs, 0) == SEGMENT_HEADER_LEN
  {
  }

  /** The entries of the frames from i on carry the records from i on. */
  lemma RecordsOfEntries(c: Codec, seg: Segment, i: nat)
    requires i <= |seg.recs|
    ensures RecordsOf(EntriesOf(c, seg, i, |seg.recs|)) == seg.recs[i..]
  {
    var es := EntriesOf(c, seg, i, |seg.recs|);
    forall n | 0 <= n < |es| ensures RecordsOf(es)[n] == seg.recs[i..][n] {
      assert es[n] == EntryAt(c, seg, i + n);
    }
  }

  /** Torn-tail recovery is exact: a scan finds every whole frame, nothing else, and where they end. */
  lemma ScanIsExact(c: Codec, nodeId: seq<byte>, seg: Segment)
    requires Lawful(c) && SegmentOk(c, nodeId, seg)
    ensures Scan(c, Image(c, nodeId, seg), seg.id)
            == Success(SegmentScan(seg.recs, Offset(c, seg.recs, |seg.recs|)))
  {
    hide Image, ReadSegment, SegmentOk, Lawful, Offset, RecordsOf;
    var n := |seg.recs|;
    ReadSegmentOfImage(c, nodeId, seg, 0, None);
    var entries := EntriesOf(c, seg, 0, n);
    RecordsOfEntries(c, seg, 0);
    assert seg.recs[0..] == seg.recs;
    assert Offset(c, seg.recs, 0) == SEGMENT_HEADER_LEN by { NoFrames(c, seg.recs); }
    if n > 0 {
      assert entries[n - 1] == EntryAt(c, seg, n - 1);
    }
  }

  /** Truncating at the scan's offset removes the torn bytes and nothing else; doing it again changes nothing. */
  lemma RepairIsExact(c: Codec, nodeId: seq<byte>, seg: Segment)
    requires Lawful(c) && SegmentOk(c, nodeId, seg)
    ensures var repaired := seg.(torn := []);
            && Image(c, nodeId, seg)[..Offset(c, seg.recs, |seg.recs|)] == Image(c, nodeId, repaired)
            && SegmentOk(c, nodeId, repaired)
            && Scan(c, Image(c, nodeId, repaired), seg.id) == Scan(c, Image(c, nodeId, seg), seg.id)
            && |Image(c, nodeId, repaired)| == Offset(c, seg.recs, |seg.recs|)
  {
    var repaired := seg.(torn := []);
    assert Image(c, nodeId, seg)[..Offset(c, seg.recs, |seg.recs|)] == Image(c, nodeId, repaired);
    ScanIsExact(c, nodeId, seg);
    ScanIsExact(c, nodeId, repaired);
  }

  lemma {:induction false} PrefixFrames(c: Codec, recs: seq<Record>, r: Record, n: nat)
    requires n <= |recs|
    ensures Frames(c, recs + [r], n) == Frames(c, recs, n)
    ensures Offset(c, recs + [r], n) == Offset(c, recs, n)
  {
    if n > 0 {
      PrefixFrames(c, recs, r, n - 1);
    }
  }

  /** Appending a frame's bytes to a repaired file appends its record. */
  lemma AppendFrameToImage(c: Codec, nodeId: seq<byte>, seg: Segment, r: Record)
    requires |nodeId| <= MAX_NODE_ID_LEN && seg.torn == []
    ensures Image(c, nodeId, seg) + Frame(c, r) == Image(c, nodeId, seg.(recs := seg.recs + [r]))
    ensures Offset(c, seg.recs + [r], |seg.recs| + 1) == Offset(c, seg.recs, |seg.recs|) + FrameLen(c, r)
  {
    hide Header, Frame;
    PrefixFrames(c, seg.recs, r, |seg.recs|);
    var h := Header(c, HeadOfSegment(nodeId, seg));
    var f := Frames(c, seg.recs, |seg.recs|);
    Assoc(h, f, Frame(c, r));
    assert (h + f) + [] == h + f;
    assert (h + (f + Frame(c, r))) + [] == h + (f + Frame(c, r));
  }
}
