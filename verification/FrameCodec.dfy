/** Record frames: `serialize_frame` and `read_record_frame` of src/wal/mod.rs. */
module FrameCodec {
  import opened Bytes
  import opened Wrappers

  const RECORD_MAGIC: seq<byte> := [105, 52, 120, 46, 114, 101, 99, 0]
  const RECORD_VERSION := 1
  const RECORD_TYPE_DATA := 1
  const RECORD_FLAGS_NONE := 0
  const RECORD_HEADER_FIXED_LEN := 42

  datatype Envelope = Envelope(projectId: int, receivedAt: u64, http: seq<byte>)

  datatype Record = Record(
    recordId: seq<byte>,
    lsn: nat,
    nodeId: seq<byte>,
    envelope: Envelope,
    payload: seq<byte>)

  /** The library functions the format rests on; nothing is known of them beyond `Lawful`. */
  datatype Codec = Codec(
    serialize: Record -> seq<byte>,             // bitcode::serialize
    deserialize: seq<byte> -> Option<Record>,   // bitcode::deserialize
    crc32: seq<byte> -> nat,                    // crc32fast::hash
    validUtf8: seq<byte> -> bool)               // String::from_utf8 succeeds

  ghost predicate Lawful(c: Codec) {
    && (forall r :: c.deserialize(c.serialize(r)) == Some(r))
    && (forall s :: c.crc32(s) < U32_LIMIT)
  }

  /** Field widths that `serialize_frame` checks, or that the record's Rust types impose. */
  predicate Encodable(c: Codec, r: Record) {
    && |c.serialize(r)| < U32_LIMIT
    && RECORD_HEADER_FIXED_LEN + |r.nodeId| < U16_LIMIT
    && r.lsn < U64_LIMIT
    && c.validUtf8(r.nodeId)
  }

  datatype FrameHead = FrameHead(
    magic: seq<byte>, version: nat, headerLen: nat, kind: nat, flags: nat,
    lsn: nat, receivedAt: nat, nodeLen: nat, payloadLen: nat, crc: nat)

  function EncodeHead(h: FrameHead): (s: seq<byte>)
    requires |h.magic| == 8 && h.kind < 256 && h.flags < 256
    ensures |s| == RECORD_HEADER_FIXED_LEN && s[..8] == h.magic
  {
    (h.magic + BE(h.version, 2) + BE(h.headerLen, 2) + [h.kind, h.flags, 0, 0])
    + (BE(h.lsn, 8) + BE(h.receivedAt, 8))
    + (BE(h.nodeLen, 2) + BE(h.payloadLen, 4) + BE(h.crc, 4))
  }

  function DecodeHead(s: seq<byte>): FrameHead
    requires |s| == RECORD_HEADER_FIXED_LEN
  {
    FrameHead(s[..8], FromBE(s[8..10]), FromBE(s[10..12]), s[12], s[13], FromBE(s[16..24]),
              FromBE(s[24..32]), FromBE(s[32..34]), FromBE(s[34..38]), FromBE(s[38..42]))
  }

  function HeadOf(c: Codec, r: Record): FrameHead {
    var payload := c.serialize(r);
    FrameHead(RECORD_MAGIC, RECORD_VERSION, RECORD_HEADER_FIXED_LEN + |r.nodeId|, RECORD_TYPE_DATA,
              RECORD_FLAGS_NONE, r.lsn, r.envelope.receivedAt, |r.nodeId|, |payload|, c.crc32(payload))
  }

  function FrameLen(c: Codec, r: Record): nat {
    RECORD_HEADER_FIXED_LEN + |r.nodeId| + |c.serialize(r)|
  }

  function Frame(c: Codec, r: Record): (s: seq<byte>)
    ensures |s| == FrameLen(c, r)
  {
    EncodeHead(HeadOf(c, r)) + r.nodeId + c.serialize(r)
  }

  datatype FrameError =
    | PayloadTooLarge | NodeIdTooLarge
    | BadMagic | BadVersion | BadHeaderLen | BadType | BadFlags | HeaderLenMismatch | BadNodeId
    | CrcMismatch | BadPayload | LsnMismatch | TimestampMismatch | NodeIdMismatch

  /** `serialize_frame`: the checked conversions, then the bytes. */
  function SerializeFrame(c: Codec, r: Record): (res: Result<seq<byte>, FrameError>)
    ensures Encodable(c, r) ==> res == Success(Frame(c, r))
  {
    if |c.serialize(r)| >= U32_LIMIT then Failure(PayloadTooLarge)
    else if RECORD_HEADER_FIXED_LEN + |r.nodeId| >= U16_LIMIT then Failure(NodeIdTooLarge)
    else Success(Frame(c, r))
  }

  /** Incomplete is the source's `Ok(None)`: the reader met the end of the file. */
  datatype FrameParse = Incomplete | Corrupt(error: FrameError) | Parsed(record: Record, len: nat)

  /** `read_record_frame` on the bytes that are left in the file. */
  function ParseFrame(c: Codec, s: seq<byte>): (p: FrameParse)
    ensures p.Parsed? ==> RECORD_HEADER_FIXED_LEN <= p.len <= |s|
  {
    if |s| < 8 then Incomplete
    else if s[..8] != RECORD_MAGIC then Corrupt(BadMagic)
    else if |s| < RECORD_HEADER_FIXED_LEN then Incomplete
    else
      var h := DecodeHead(s[..RECORD_HEADER_FIXED_LEN]);
      if h.version != RECORD_VERSION then Corrupt(BadVersion)
      else if h.headerLen < RECORD_HEADER_FIXED_LEN then Corrupt(BadHeaderLen)
      else if h.kind != RECORD_TYPE_DATA then Corrupt(BadType)
      else if h.flags != RECORD_FLAGS_NONE then Corrupt(BadFlags)
      else if h.headerLen != RECORD_HEADER_FIXED_LEN + h.nodeLen then Corrupt(HeaderLenMismatch)
      else ParseBody(c, h, s[RECORD_HEADER_FIXED_LEN..])
  }

  /** The variable part: node id, then payload, then the cross-checks against the header. */
  function ParseBody(c: Codec, h: FrameHead, s: seq<byte>): (p: FrameParse)
    ensures p.Parsed? ==>
              && p.len == RECORD_HEADER_FIXED_LEN + h.nodeLen + h.payloadLen
              && h.nodeLen + h.payloadLen <= |s|
  {
    if |s| < h.nodeLen then Incomplete
    else
      var nodeId := s[..h.nodeLen];
      if !c.validUtf8(nodeId) then Corrupt(BadNodeId)
      else if |s| < h.nodeLen + h.payloadLen then Incomplete
      else
        var payload := s[h.nodeLen..h.nodeLen + h.payloadLen];
        if c.crc32(payload) != h.crc then Corrupt(CrcMismatch)
        else
          match c.deserialize(payload)
          case None => Corrupt(BadPayload)
          case Some(r) =>
            if r.lsn != h.lsn then Corrupt(LsnMismatch)
            else if r.envelope.receivedAt != h.receivedAt then Corrupt(TimestampMismatch)
            else if r.nodeId != nodeId then Corrupt(NodeIdMismatch)
            else Parsed(r, RECORD_HEADER_FIXED_LEN + h.nodeLen + h.payloadLen)
  }

  /** The end of the log is only seen where a frame's header, or the node id and payload it announces, are cut off: a
      damaged frame is an error. */
  lemma IncompleteIsCutOff(c: Codec, s: seq<byte>)
    requires ParseFrame(c, s).Incomplete?
    ensures |s| < RECORD_HEADER_FIXED_LEN
            || |s| < RECORD_HEADER_FIXED_LEN + FromBE(s[32..34]) + FromBE(s[34..38])
  {
    hide FromBE;
    if |s| >= RECORD_HEADER_FIXED_LEN {
      var head := s[..RECORD_HEADER_FIXED_LEN];
      assert head[32..34] == s[32..34] && head[34..38] == s[34..38];
    }
  }

  /** What is parsed as a frame has passed every check: the payload has the checksum that is stored, decodes to the
      record, and agrees with the header in LSN, time and node id. */
  lemma ParsedIsChecked(c: Codec, s: seq<byte>)
    requires ParseFrame(c, s).Parsed?
    ensures var Parsed(r, len) := ParseFrame(c, s);
            && RECORD_HEADER_FIXED_LEN <= len <= |s| && s[..8] == RECORD_MAGIC
            && FromBE(s[8..10]) == RECORD_VERSION
            && s[12] == RECORD_TYPE_DATA && s[13] == RECORD_FLAGS_NONE
            && var node := RECORD_HEADER_FIXED_LEN + FromBE(s[32..34]);
            && FromBE(s[10..12]) == node && len == node + FromBE(s[34..38])
            && c.validUtf8(s[RECORD_HEADER_FIXED_LEN..node]) && r.nodeId == s[RECORD_HEADER_FIXED_LEN..node]
            && c.crc32(s[node..len]) == FromBE(s[38..42]) && c.deserialize(s[node..len]) == Some(r)
            && r.lsn == FromBE(s[16..24]) && r.envelope.receivedAt as nat == FromBE(s[24..32])
  {
    hide FromBE;
    var rest, head := s[RECORD_HEADER_FIXED_LEN..], s[..RECORD_HEADER_FIXED_LEN];
    var h := DecodeHead(head);
    assert rest[..h.nodeLen] == s[RECORD_HEADER_FIXED_LEN..RECORD_HEADER_FIXED_LEN + h.nodeLen];
    assert rest[h.nodeLen..h.nodeLen + h.payloadLen]
        == s[RECORD_HEADER_FIXED_LEN + h.nodeLen..RECORD_HEADER_FIXED_LEN + h.nodeLen + h.payloadLen];
    forall i: nat, j: nat | i <= j <= RECORD_HEADER_FIXED_LEN ensures head[i..j] == s[i..j] {
    }
  }

  lemma HeadRoundTrips(h: FrameHead)
    requires |h.magic| == 8 && h.kind < 256 && h.flags < 256
    requires h.version < U16_LIMIT && h.headerLen < U16_LIMIT && h.nodeLen < U16_LIMIT
    requires h.lsn < U64_LIMIT && h.receivedAt < U64_LIMIT
    requires h.payloadLen < U32_LIMIT && h.crc < U32_LIMIT
    ensures DecodeHead(EncodeHead(h)) == h
  {
    FieldRoundTrips(h.version);
    FieldRoundTrips(h.headerLen);
    FieldRoundTrips(h.lsn);
    FieldRoundTrips(h.receivedAt);
    FieldRoundTrips(h.nodeLen);
    FieldRoundTrips(h.payloadLen);
    FieldRoundTrips(h.crc);
    HeadSlices(h.magic, BE(h.version, 2), BE(h.headerLen, 2), [h.kind, h.flags, 0, 0], BE(h.lsn, 8),
               BE(h.receivedAt, 8), BE(h.nodeLen, 2), BE(h.payloadLen, 4), BE(h.crc, 4));
  }

  lemma HeadSlices(magic: seq<byte>, version: seq<byte>, headerLen: seq<byte>, kind: seq<byte>,
                   lsn: seq<byte>, at: seq<byte>, nodeLen: seq<byte>, payloadLen: seq<byte>, crc: seq<byte>)
    requires |magic| == |lsn| == |at| == 8 && |version| == |headerLen| == |nodeLen| == 2
    requires |kind| == |payloadLen| == |crc| == 4
    ensures var s := (magic + version + headerLen + kind) + (lsn + at) + (nodeLen + payloadLen + crc);
            && s[..8] == magic && s[8..10] == version && s[10..12] == headerLen && s[12..16] == kind
            && s[12] == kind[0] && s[13] == kind[1]
            && s[16..24] == lsn && s[24..32] == at
            && s[32..34] == nodeLen && s[34..38] == payloadLen && s[38..42] == crc
  {
    var a, b, z := magic + version + headerLen + kind, lsn + at, nodeLen + payloadLen + crc;
    var s := a + b + z;
    assert s[..8] == a[..8] == magic;
    assert s[8..10] == a[8..10] == version;
    assert s[10..12] == a[10..12] == headerLen;
    assert s[12..16] == a[12..16] == kind;
    assert s[16..24] == b[..8] == lsn;
    assert s[24..32] == b[8..] == at;
    assert s[32..34] == z[..2] == nodeLen;
    assert s[34..38] == z[2..6] == payloadLen;
    assert s[38..42] == z[6..] == crc;
  }

  lemma FrameParts(c: Codec, r: Record, rest: seq<byte>)
    ensures var s, h := Frame(c, r) + rest, EncodeHead(HeadOf(c, r));
            && s[..RECORD_HEADER_FIXED_LEN] == h && s[..8] == h[..8] == RECORD_MAGIC
            && s[RECORD_HEADER_FIXED_LEN..] == r.nodeId + c.serialize(r) + rest
  {
    hide EncodeHead;
    var s, h := Frame(c, r) + rest, EncodeHead(HeadOf(c, r));
    assert s == h + (r.nodeId + c.serialize(r) + rest);
    assert s[..RECORD_HEADER_FIXED_LEN] == h;
    assert s[..8] == h[..8];
  }

  /** Parsing an encoded frame, whatever follows it, gives the record and the frame's exact length. */
  lemma FrameRoundTrips(c: Codec, r: Record, rest: seq<byte>)
    requires Lawful(c) && Encodable(c, r)
    ensures ParseFrame(c, Frame(c, r) + rest) == Parsed(r, FrameLen(c, r))
  {
    var h := HeadOf(c, r);
    HeadRoundTrips(h);
    FrameParts(c, r, rest);
    hide EncodeHead, DecodeHead, Frame;
    var body := r.nodeId + c.serialize(r) + rest;
    assert body[..h.nodeLen] == r.nodeId;
    assert body[h.nodeLen..h.nodeLen + h.payloadLen] == c.serialize(r);
    assert ParseBody(c, h, body) == Parsed(r, FrameLen(c, r));
  }

  /** A torn frame is recognised as unfinished: never an error, never some other record. */
  lemma TornFrameIsIncomplete(c: Codec, r: Record, n: nat)
    requires Lawful(c) && Encodable(c, r) && n < FrameLen(c, r)
    ensures ParseFrame(c, Frame(c, r)[..n]) == Incomplete
  {
    var h := HeadOf(c, r);
    HeadRoundTrips(h);
    FrameParts(c, r, []);
    assert Frame(c, r) + [] == Frame(c, r);
    hide EncodeHead, DecodeHead, Frame;
    var f, s := Frame(c, r), Frame(c, r)[..n];
    if n >= 8 {
      assert s[..8] == f[..8];
      if n >= RECORD_HEADER_FIXED_LEN {
        assert s[..RECORD_HEADER_FIXED_LEN] == f[..RECORD_HEADER_FIXED_LEN];
        var body := s[RECORD_HEADER_FIXED_LEN..];
        assert body == f[RECORD_HEADER_FIXED_LEN..][..n - RECORD_HEADER_FIXED_LEN];
        if |body| >= h.nodeLen {
          assert body[..h.nodeLen] == r.nodeId;
        }
      }
    }
  }

  /** What a parse returns depends on the bytes it consumed and on nothing behind them. */
  lemma ParseIsLocal(c: Codec, s: seq<byte>, rest: seq<byte>)
    requires ParseFrame(c, s).Parsed?
    ensures ParseFrame(c, s[..ParseFrame(c, s).len] + rest) == ParseFrame(c, s)
  {
    hide DecodeHead;
    var n := ParseFrame(c, s).len;
    var t := s[..n] + rest;
    assert t[..8] == s[..8];
    assert t[..RECORD_HEADER_FIXED_LEN] == s[..RECORD_HEADER_FIXED_LEN];
    var h := DecodeHead(s[..RECORD_HEADER_FIXED_LEN]);
    var a, b := s[RECORD_HEADER_FIXED_LEN..], t[RECORD_HEADER_FIXED_LEN..];
    assert b == a[..h.nodeLen + h.payloadLen] + rest;
    assert b[..h.nodeLen] == a[..h.nodeLen];
    assert b[h.nodeLen..h.nodeLen + h.payloadLen] == a[h.nodeLen..h.nodeLen + h.payloadLen];
  }

  /** No frame is the beginning of another one, so a log has one reading only. */
  lemma FramesArePrefixFree(c: Codec, a: Record, b: Record)
    requires Lawful(c) && Encodable(c, a) && Encodable(c, b)
    requires Frame(c, a) <= Frame(c, b)
    ensures a == b
  {
    hide Frame;
    var rest := Frame(c, b)[FrameLen(c, a)..];
    assert Frame(c, a) + rest == Frame(c, b) == Frame(c, b) + [];
    FrameRoundTrips(c, a, rest);
    FrameRoundTrips(c, b, []);
  }
}
