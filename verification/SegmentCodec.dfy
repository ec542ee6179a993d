/** The 512-byte segment header: `serialize_segment_header` and `read_segment_header`. */
module SegmentCodec {
  import opened Bytes
  import opened Wrappers
  import opened FrameCodec

  const SEGMENT_MAGIC: seq<byte> := [105, 52, 120, 46, 115, 101, 103, 0]
  const SEGMENT_VERSION := 1
  const SEGMENT_HEADER_LEN := 512
  const SEGMENT_HEADER_CRC_OFFSET := 508
  const SEGMENT_NODE_ID_OFFSET := 38
  const MAX_NODE_ID_LEN := 470

  datatype SegmentHead = SegmentHead(id: nat, createdAt: nat, start: nat, nodeId: seq<byte>)

  datatype WalError =
    | HeaderTruncated | BadSegmentMagic | BadSegmentVersion | BadSegmentHeaderLen | HeaderCrcMismatch
    | BadSegmentNodeIdLen | BadSegmentNodeId | SegmentIdMismatch | SegmentNodeIdMismatch
    | NodeIdTooLong | StartLsnMismatch | BadCheckpointOffset | MissingSegment
    | BadFrame(frame: FrameError) | Io

  function HeaderFields(h: SegmentHead): (s: seq<byte>)
    ensures |s| == SEGMENT_NODE_ID_OFFSET
  {
    (SEGMENT_MAGIC + BE(SEGMENT_VERSION, 2) + BE(SEGMENT_HEADER_LEN, 2))
    + (BE(h.id, 8) + BE(h.createdAt, 8) + BE(h.start, 8) + BE(|h.nodeId|, 2))
  }

  function HeaderBody(h: SegmentHead): (s: seq<byte>)
    requires |h.nodeId| <= MAX_NODE_ID_LEN
    ensures |s| == SEGMENT_HEADER_CRC_OFFSET
  {
    HeaderFields(h) + h.nodeId + seq(MAX_NODE_ID_LEN - |h.nodeId|, _ => 0)
  }

  function Header(c: Codec, h: SegmentHead): (s: seq<byte>)
    requires |h.nodeId| <= MAX_NODE_ID_LEN
    ensures |s| == SEGMENT_HEADER_LEN
  {
    HeaderBody(h) + BE(c.crc32(HeaderBody(h)), 4)
  }

  function SerializeHeader(c: Codec, h: SegmentHead): Result<seq<byte>, WalError> {
    if |h.nodeId| > MAX_NODE_ID_LEN then Failure(NodeIdTooLong) else Success(Header(c, h))
  }

  /** The field `created_at` is written but never read back by the source; `createdAt` reports it here. */
  function ParseHeader(c: Codec, file: seq<byte>): Result<SegmentHead, WalError> {
    if |file| < SEGMENT_HEADER_LEN then Failure(HeaderTruncated)
    else if file[..8] != SEGMENT_MAGIC then Failure(BadSegmentMagic)
    else if FromBE(file[8..10]) != SEGMENT_VERSION then Failure(BadSegmentVersion)
    else if FromBE(file[10..12]) != SEGMENT_HEADER_LEN then Failure(BadSegmentHeaderLen)
    else if c.crc32(file[..SEGMENT_HEADER_CRC_OFFSET]) != FromBE(file[508..512]) then
      Failure(HeaderCrcMismatch)
    else
      var nodeEnd := SEGMENT_NODE_ID_OFFSET + FromBE(file[36..38]);
      if nodeEnd > SEGMENT_HEADER_CRC_OFFSET then Failure(BadSegmentNodeIdLen)
      else if !c.validUtf8(file[SEGMENT_NODE_ID_OFFSET..nodeEnd]) then Failure(BadSegmentNodeId)
      else Success(SegmentHead(FromBE(file[12..20]), FromBE(file[20..28]), FromBE(file[28..36]),
                               file[SEGMENT_NODE_ID_OFFSET..nodeEnd]))
  }

  /** A header that is read has passed every check, its own checksum included. */
  lemma ReadHeaderIsChecked(c: Codec, file: seq<byte>)
    requires ParseHeader(c, file).Success?
    ensures var h := ParseHeader(c, file).value;
            && |file| >= SEGMENT_HEADER_LEN && file[..8] == SEGMENT_MAGIC
            && FromBE(file[8..10]) == SEGMENT_VERSION && FromBE(file[10..12]) == SEGMENT_HEADER_LEN
            && c.crc32(file[..508]) == FromBE(file[508..512])
            && h.id == FromBE(file[12..20]) && h.createdAt == FromBE(file[20..28]) && h.start == FromBE(file[28..36])
            && |h.nodeId| == FromBE(file[36..38]) <= MAX_NODE_ID_LEN
            && h.nodeId == file[38..38 + |h.nodeId|] && c.validUtf8(h.nodeId)
  {
    hide FromBE;
  }

  ghost predicate HeadOk(c: Codec, h: SegmentHead) {
    && h.id < U64_LIMIT && h.createdAt < U64_LIMIT && h.start < U64_LIMIT
    && |h.nodeId| <= MAX_NODE_ID_LEN && c.validUtf8(h.nodeId)
  }

  /** The header round-trips for every node id that fits, whatever frames follow it. */
  lemma HeaderRoundTrips(c: Codec, h: SegmentHead, rest: seq<byte>)
    requires Lawful(c) && HeadOk(c, h)
    ensures ParseHeader(c, Header(c, h) + rest) == Success(h)
  {
    hide HeaderFields, HeaderBody, Header, BE, FromBE;
    FieldRoundTrips(SEGMENT_VERSION);
    FieldRoundTrips(SEGMENT_HEADER_LEN);
    FieldRoundTrips(h.id);
    FieldRoundTrips(h.createdAt);
    FieldRoundTrips(h.start);
    FieldRoundTrips(|h.nodeId|);
    FieldRoundTrips(c.crc32(HeaderBody(h)));
    FieldSlices(h);
    HeaderParts(c, h, rest);
  }

  lemma HeaderParts(c: Codec, h: SegmentHead, rest: seq<byte>)
    requires |h.nodeId| <= MAX_NODE_ID_LEN
    ensures var file, f := Header(c, h) + rest, HeaderFields(h);
            && file[..8] == f[..8] && file[8..10] == f[8..10] && file[10..12] == f[10..12]
            && file[12..20] == f[12..20] && file[20..28] == f[20..28] && file[28..36] == f[28..36]
            && file[36..38] == f[36..38]
            && file[SEGMENT_NODE_ID_OFFSET..SEGMENT_NODE_ID_OFFSET + |h.nodeId|] == h.nodeId
            && file[..SEGMENT_HEADER_CRC_OFFSET] == HeaderBody(h)
            && file[508..512] == BE(c.crc32(HeaderBody(h)), 4)
  {
    hide HeaderFields, BE;
    var file, f := Header(c, h) + rest, HeaderFields(h);
    assert file[..SEGMENT_HEADER_CRC_OFFSET] == HeaderBody(h);
    assert file[..SEGMENT_NODE_ID_OFFSET] == HeaderBody(h)[..SEGMENT_NODE_ID_OFFSET] == f;
    assert file[508..512] == BE(c.crc32(HeaderBody(h)), 4);
    forall i: nat, j: nat | i <= j <= SEGMENT_NODE_ID_OFFSET ensures file[i..j] == f[i..j] {
      assert file[i..j] == file[..SEGMENT_NODE_ID_OFFSET][i..j];
    }
  }

  lemma FieldSlices(h: SegmentHead)
    ensures var f := HeaderFields(h);
            && f[..8] == SEGMENT_MAGIC
            && f[8..10] == BE(SEGMENT_VERSION, 2) && f[10..12] == BE(SEGMENT_HEADER_LEN, 2)
            && f[12..20] == BE(h.id, 8) && f[20..28] == BE(h.createdAt, 8)
            && f[28..36] == BE(h.start, 8) && f[36..38] == BE(|h.nodeId|, 2)
  {
    var a := SEGMENT_MAGIC + BE(SEGMENT_VERSION, 2) + BE(SEGMENT_HEADER_LEN, 2);
    var b := BE(h.id, 8) + BE(h.createdAt, 8) + BE(h.start, 8) + BE(|h.nodeId|, 2);
    var f := HeaderFields(h);
    assert f[..8] == a[..8];
    assert f[8..10] == a[8..10];
    assert f[10..12] == a[10..12];
    assert f[12..20] == b[..8];
    assert f[20..28] == b[8..16];
    assert f[28..36] == b[16..24];
    assert f[36..38] == b[24..26];
  }
}
