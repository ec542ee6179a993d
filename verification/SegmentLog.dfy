/** The log as its segments in id order: what reading, positions and cleanup mean across segments. */
module SegmentLog {
  import opened Wrappers
  import opened FrameCodec
  import opened SegmentFile

  type Log = seq<Segment>

  ghost predicate Ordered(segs: Log) {
    forall i, j :: 0 <= i < j < |segs| ==> segs[i].id < segs[j].id
  }

  function Last(segs: Log): Segment
    requires segs != []
  {
    segs[|segs| - 1]
  }

  function Front(segs: Log): Log
    requires segs != []
  {
    segs[..|segs| - 1]
  }

  function FileLen(c: Codec, seg: Segment): nat {
    Offset(c, seg.recs, |seg.recs|) + |seg.torn|
  }

  /** All records, segment after segment. */
  function Flat(segs: Log): seq<Record> {
    if segs == [] then [] else segs[0].recs + Flat(segs[1..])
  }

  lemma {:induction false} FlatConcat(a: Log, b: Log)
    ensures Flat(a + b) == Flat(a) + Flat(b)
  {
    if a == [] {
      assert a + b == b;
    } else {
      FlatConcat(a[1..], b);
      var ab := a + b;
      assert ab[1..] == a[1..] + b && ab[0] == a[0];
      Assoc(a[0].recs, Flat(a[1..]), Flat(b));
    }
  }

  lemma FlatLast(segs: Log)
    requires segs != []
    ensures Flat(segs) == Flat(Front(segs)) + Last(segs).recs
  {
    FlatConcat(Front(segs), [Last(segs)]);
    assert segs == Front(segs) + [Last(segs)];
    assert Flat([Last(segs)]) == Last(segs).recs + Flat([]);
  }

  lemma FlatHead(segs: Log)
    requires segs != []
    ensures Flat(segs) == segs[0].recs + Flat(segs[1..])
  {
  }

  lemma FlatSplit(segs: Log, k: nat)
    requires k < |segs|
    ensures Flat(segs) == Flat(segs[..k]) + segs[k].recs + Flat(segs[k + 1..])
    ensures Flat(segs[k..]) == segs[k].recs + Flat(segs[k + 1..])
  {
    hide Flat;
    FlatConcat(segs[..k], segs[k..]);
    assert segs == segs[..k] + segs[k..];
    var here := segs[k..];
    assert here[1..] == segs[k + 1..] && here[0] == segs[k];
    FlatHead(here);
    Assoc(Flat(segs[..k]), segs[k].recs, Flat(segs[k + 1..]));
  }

  // ---- positions ----------------------------------------------------------------------------

  /** p points at the start of frame i of segs[k]; i == |recs| is the end of its whole frames. */
  ghost predicate Located(c: Codec, segs: Log, p: Position, k: int, i: int) {
    && 0 <= k < |segs| && segs[k].id == p.segment
    && 0 <= i <= |segs[k].recs| && p.offset == Offset(c, segs[k].recs, i)
  }

  /** The records from frame i of segs[k] to the end of the log. */
  function Tail(segs: Log, k: nat, i: nat): seq<Record>
    requires k < |segs| && i <= |segs[k].recs|
  {
    segs[k].recs[i..] + Flat(segs[k + 1..])
  }

  /** p splits the log: behind it are exactly the records of `hist` above p.lsn, before it in its segment ends p.lsn. */
  ghost predicate Splits(c: Codec, segs: Log, hist: seq<Record>, p: Position, k: int, i: int) {
    && Located(c, segs, p, k, i) && p.lsn <= |hist|
    && Tail(segs, k, i) == hist[p.lsn..]
    && (i > 0 ==> segs[k].recs[i - 1].lsn == p.lsn)
  }

  /** p is a frame boundary behind which the log holds exactly the records of `hist` with LSN above p.lsn. */
  ghost predicate At(c: Codec, segs: Log, hist: seq<Record>, p: Position) {
    exists k, i :: Splits(c, segs, hist, p, k, i)
  }

  lemma LocatedUnique(c: Codec, segs: Log, p: Position, k: int, i: int, k': int, i': int)
    requires Ordered(segs) && Located(c, segs, p, k, i) && Located(c, segs, p, k', i')
    ensures k == k' && i == i'
  {
    assert k == k';
    if i < i' { OffsetsGrow(c, segs[k].recs, i, i'); }
    if i' < i { OffsetsGrow(c, segs[k].recs, i', i); }
  }

  /** Later segments leave fewer records behind them. */
  lemma TailShrinks(segs: Log, k: nat, i: nat, k': nat, i': nat)
    requires k < k' < |segs| && i <= |segs[k].recs| && i' <= |segs[k'].recs|
    ensures |Tail(segs, k', i')| <= |Tail(segs, k, i)|
  {
    hide Flat;
    var rest, m := segs[k + 1..], k' - k - 1;
    FlatConcat(rest[..m], rest[m..]);
    assert rest == rest[..m] + rest[m..] && rest[m..] == segs[k'..];
    FlatSplit(segs, k');
  }

  // ---- reading ------------------------------------------------------------------------------

  function FrameIndex(c: Codec, recs: seq<Record>, off: nat, i: nat): (j: nat)
    requires i <= |recs|
    ensures i <= j <= |recs|
    ensures Offset(c, recs, j) == off || j == |recs|
    decreases |recs| - i
  {
    if Offset(c, recs, i) == off || i == |recs| then i else FrameIndex(c, recs, off, i + 1)
  }

  /** Index of the first frame of seg that a reader starting at `start` returns. */
  function FirstFrame(c: Codec, seg: Segment, start: Option<Position>): (i: nat)
    ensures i <= |seg.recs|
  {
    if start.None? || start.value.segment < seg.id then 0
    else if start.value.segment == seg.id then FrameIndex(c, seg.recs, start.value.offset, 0)
    else |seg.recs|
  }

  function WholeSegment(c: Codec, seg: Segment, i: nat): seq<Entry>
    requires i <= |seg.recs|
  {
    EntriesOf(c, seg, i, |seg.recs|)
  }

  /** What `read_entries_after` returns for a start at a frame boundary. */
  function EntriesAfter(c: Codec, segs: Log, start: Option<Position>): seq<Entry> {
    if segs == [] then []
    else WholeSegment(c, segs[0], FirstFrame(c, segs[0], start)) + EntriesAfter(c, segs[1..], start)
  }

  function Take<T>(s: seq<T>, limit: Option<nat>): seq<T> {
    if limit.None? || limit.value >= |s| then s else s[..limit.value]
  }

  lemma {:induction false} FrameIndexFinds(c: Codec, recs: seq<Record>, i: nat, j: nat)
    requires j <= i <= |recs|
    ensures FrameIndex(c, recs, Offset(c, recs, i), j) == i
    decreases i - j
  {
    if j < i {
      OffsetsGrow(c, recs, j, i);
      FrameIndexFinds(c, recs, i, j + 1);
    }
  }

  lemma {:induction false} EntriesAfterLocated(c: Codec, segs: Log, p: Position, k: int, i: int)
    requires Ordered(segs) && Located(c, segs, p, k, i)
    ensures EntriesAfter(c, segs, Some(p)) == WholeSegment(c, segs[k], i) + EntriesAfter(c, segs[k + 1..], None)
  {
    hide WholeSegment;
    if k == 0 {
      FrameIndexFinds(c, segs[0].recs, i, 0);
      EntriesBehind(c, segs[1..], p);
    } else {
      EntriesAfterLocated(c, segs[1..], p, k - 1, i);
      assert segs[1..][k..] == segs[k + 1..];
      NothingLeft(c, segs[0]);
    }
  }

  lemma NothingLeft(c: Codec, seg: Segment)
    ensures WholeSegment(c, seg, |seg.recs|) == []
  {
  }

  lemma {:induction false} EntriesBehind(c: Codec, segs: Log, p: Position)
    requires forall k :: 0 <= k < |segs| ==> p.segment < segs[k].id
    ensures EntriesAfter(c, segs, Some(p)) == EntriesAfter(c, segs, None)
  {
    if segs != [] {
      EntriesBehind(c, segs[1..], p);
    }
  }

  lemma {:induction false} RecordsOfAll(c: Codec, segs: Log)
    ensures RecordsOf(EntriesAfter(c, segs, None)) == Flat(segs)
  {
    if segs != [] {
      RecordsOfAll(c, segs[1..]);
      RecordsOfEntries(c, segs[0], 0);
      assert segs[0].recs[0..] == segs[0].recs;
      RecordsOfConcat(WholeSegment(c, segs[0], 0), EntriesAfter(c, segs[1..], None));
    }
  }

  lemma RecordsOfConcat(a: seq<Entry>, b: seq<Entry>)
    ensures RecordsOf(a + b) == RecordsOf(a) + RecordsOf(b)
  {
  }

  lemma RecordsAfterLocated(c: Codec, segs: Log, p: Position, k: int, i: int)
    requires Ordered(segs) && Located(c, segs, p, k, i)
    ensures RecordsOf(EntriesAfter(c, segs, Some(p))) == Tail(segs, k, i)
  {
    hide RecordsOf, EntriesOf, Offset, EntriesAfter;
    EntriesAfterLocated(c, segs, p, k, i);
    RecordsOfAll(c, segs[k + 1..]);
    RecordsOfEntries(c, segs[k], i);
    RecordsOfConcat(WholeSegment(c, segs[k], i), EntriesAfter(c, segs[k + 1..], None));
  }

  lemma WholeSegmentAt(c: Codec, seg: Segment, i: nat, n: nat)
    requires i + n < |seg.recs|
    ensures WholeSegment(c, seg, i)[n] == EntryAt(c, seg, i + n)
  {
  }

  lemma WholeSegmentRest(c: Codec, seg: Segment, i: nat, n: nat)
    requires i + n <= |seg.recs|
    ensures WholeSegment(c, seg, i)[n..] == WholeSegment(c, seg, i + n)
  {
  }

  /** Entry e is frame i of segs[k]. */
  ghost predicate IsEntry(c: Codec, segs: Log, e: Entry, k: int, i: int) {
    0 <= k < |segs| && 0 <= i < |segs[k].recs| && e == EntryAt(c, segs[k], i)
  }

  lemma FirstOfAll(c: Codec, segs: Log)
    ensures segs == [] ==> EntriesAfter(c, segs, None) == []
    ensures segs != [] ==>
              && EntriesAfter(c, segs, None) == WholeSegment(c, segs[0], 0) + EntriesAfter(c, segs[1..], None)
              && Flat(segs) == segs[0].recs + Flat(segs[1..])
  {
    hide WholeSegment;
  }

  /** The n-th entry of a full read is some frame, and what follows it in the read is what follows it in the log. */
  lemma {:induction false} NthOfAll(c: Codec, segs: Log, n: nat) returns (k: int, i: int)
    requires n < |EntriesAfter(c, segs, None)|
    ensures IsEntry(c, segs, EntriesAfter(c, segs, None)[n], k, i)
    ensures Tail(segs, k, i + 1) == RecordsOf(EntriesAfter(c, segs, None))[n + 1..]
    ensures EntriesAfter(c, segs, None)[n + 1..]
            == WholeSegment(c, segs[k], i + 1) + EntriesAfter(c, segs[k + 1..], None)
  {
    hide RecordsOf, EntriesOf, Offset, EntriesAfter, Flat;
    RecordsOfAll(c, segs);
    FirstOfAll(c, segs);
    var here := WholeSegment(c, segs[0], 0);
    if n < |here| {
      k, i := 0, n;
      WholeSegmentAt(c, segs[0], 0, n);
      WholeSegmentRest(c, segs[0], 0, n + 1);
      DropFront(here, EntriesAfter(c, segs[1..], None), n + 1);
      DropFront(segs[0].recs, Flat(segs[1..]), n + 1);
    } else {
      k, i := NthOfAll(c, segs[1..], n - |here|);
      RecordsOfAll(c, segs[1..]);
      assert segs[1..][k + 1..] == segs[k + 2..];
      k := k + 1;
      DropMore(segs[0].recs, Flat(segs[1..]), n + 1);
      DropMore(here, EntriesAfter(c, segs[1..], None), n + 1);
    }
  }

  lemma DropFront<T>(a: seq<T>, b: seq<T>, n: nat)
    requires n <= |a|
    ensures (a + b)[n..] == a[n..] + b
  {
  }

  lemma DropMore<T>(a: seq<T>, b: seq<T>, n: nat)
    requires |a| <= n <= |a| + |b|
    ensures (a + b)[n..] == b[n - |a|..]
  {
  }

  lemma NthAfterLocated(c: Codec, segs: Log, p: Position, k0: int, i0: int, n: nat) returns (k: int, i: int)
    requires Ordered(segs) && Located(c, segs, p, k0, i0)
    requires n < |EntriesAfter(c, segs, Some(p))|
    ensures IsEntry(c, segs, EntriesAfter(c, segs, Some(p))[n], k, i)
    ensures Tail(segs, k, i + 1) == RecordsOf(EntriesAfter(c, segs, Some(p)))[n + 1..]
    ensures EntriesAfter(c, segs, Some(p))[n + 1..]
            == WholeSegment(c, segs[k], i + 1) + EntriesAfter(c, segs[k + 1..], None)
  {
    hide RecordsOf, EntriesOf, Offset, EntriesAfter, Located, Ordered, Flat;
    assert 0 <= k0 < |segs| && 0 <= i0 <= |segs[k0].recs| by { LocatedBounds(c, segs, p, k0, i0); }
    EntriesAfterLocated(c, segs, p, k0, i0);
    RecordsAfterLocated(c, segs, p, k0, i0);
    var here, later := WholeSegment(c, segs[k0], i0), segs[k0 + 1..];
    if n < |here| {
      k, i := k0, i0 + n;
      WholeSegmentAt(c, segs[k0], i0, n);
      WholeSegmentRest(c, segs[k0], i0, n + 1);
      DropFront(here, EntriesAfter(c, later, None), n + 1);
      DropFront(segs[k0].recs[i0..], Flat(later), n + 1);
      assert segs[k0].recs[i0..][n + 1..] == segs[k0].recs[i + 1..];
    } else {
      k, i := NthOfAll(c, later, n - |here|);
      RecordsOfAll(c, later);
      assert later[k + 1..] == segs[k0 + 1 + k + 1..];
      k := k0 + 1 + k;
      DropMore(segs[k0].recs[i0..], Flat(later), n + 1);
      DropMore(here, EntriesAfter(c, later, None), n + 1);
    }
  }

  lemma LocatedBounds(c: Codec, segs: Log, p: Position, k: int, i: int)
    requires Located(c, segs, p, k, i)
    ensures 0 <= k < |segs| && 0 <= i <= |segs[k].recs|
  {
  }
}
