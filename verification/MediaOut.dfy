/**
 Outbound media messages with per-chunk-stream header compression
 (src/chunk/media_out.rs), sent directly or behind a body that a relay encoded
 once for all its receivers.
 */
module MediaOut {
  import opened Bytes
  import opened Buffers
  import opened ChunkWire
  import opened ChunkWriter

  datatype FrameType = Audio | Script | Metadata | Video

  datatype MediaSlot = MediaSlot(csid: u32, typeId: byte, slot: nat)

  function MediaChunkStream(ft: FrameType): (m: MediaSlot)
    ensures 4 <= m.csid <= 6 && m.slot < 3 && m.csid == 4 + m.slot
  {
    match ft
    case Audio => MediaSlot(4, 0x08, 0)
    case Script | Metadata => MediaSlot(5, 0x12, 1)
    case Video => MediaSlot(6, 0x09, 2)
  }

  /** Last media header sent on one outbound chunk stream. */
  datatype MediaOutHeader = MediaOutHeader(msgStreamId: u32, timestamp: u32, msgLength: nat, msgTypeId: byte)

  datatype MediaFirstHeader = MediaFirstHeader(csid: u32, fmt: Fmt, tsField: u32, slot: nat, current: MediaOutHeader)

  type Tracker = t: seq<Option<MediaOutHeader>> | |t| == 3 witness [None, None, None]

  datatype MediaInfo = MediaInfo(frameType: FrameType, msgStreamId: u32, timestamp: u32)

  /** Picks the first header of a media message from the last one sent on its chunk stream. */
  function Choose(last: Tracker, compact: bool, info: MediaInfo, payloadLen: nat): (r: Result<MediaFirstHeader>)
    ensures r.Ok? <==> payloadLen <= RTMP_WIRE_MAX_MSG_LENGTH
    ensures r.Ok? ==> r.value.fmt <= 2 && r.value.slot < 3 && CsidInRange(r.value.csid)
  {
    if payloadLen > RTMP_WIRE_MAX_MSG_LENGTH then Err(Internal)
    else
      var MediaSlot(csid, typeId, slot) := MediaChunkStream(info.frameType);
      var current := MediaOutHeader(info.msgStreamId, info.timestamp, payloadLen, typeId);
      match last[slot]
      case Some(prev) =>
        if compact && prev.msgStreamId == info.msgStreamId && prev.timestamp <= info.timestamp
           && info.timestamp < EXTENDED_TIMESTAMP_MARKER
        then
          var fmt := if prev.msgLength == payloadLen && prev.msgLength != 0 && prev.msgTypeId == typeId then 2 else 1;
          Ok(MediaFirstHeader(csid, fmt, info.timestamp - prev.timestamp, slot, current))
        else Ok(MediaFirstHeader(csid, 0, info.timestamp, slot, current))
      case None => Ok(MediaFirstHeader(csid, 0, info.timestamp, slot, current))
  }

  /** `commit`: the header just queued is what the next one is compressed against. */
  function Commit(last: Tracker, h: MediaFirstHeader): Tracker
    requires h.slot < 3
  {
    last[h.slot := Some(h.current)]
  }

  function HeaderBytes(h: MediaFirstHeader): (b: bytes)
    requires h.fmt <= 2
    ensures |b| == FirstHeaderLen(h.csid, h.fmt, h.tsField)
  {
    FirstHeader(h.csid, h.fmt, h.tsField, h.current.msgLength, h.current.msgTypeId, h.current.msgStreamId)
  }

  /** What follows the first header: it does not depend on the tracker. */
  function MediaBody(ft: FrameType, ts: u32, payload: bytes, chunkSize: nat): bytes {
    ChunkBody(MediaChunkStream(ft).csid, payload, EffectiveChunkSize(chunkSize), ExtOf(ts))
  }

  /**
   Whatever headers were sent before, the chosen first header carries an
   extended timestamp exactly when the shared body repeats one, and then the
   same one: the body fits behind every receiver's header.
   */
  lemma BodyFitsEveryHeader(last: Tracker, compact: bool, info: MediaInfo, payloadLen: nat)
    requires payloadLen <= RTMP_WIRE_MAX_MSG_LENGTH
    ensures var h := Choose(last, compact, info, payloadLen).value;
            && ExtOf(h.tsField) == ExtOf(info.timestamp)
            && h.csid == MediaChunkStream(info.frameType).csid
  {
  }

  class MediaHeaderTracker {
    var last: Tracker

    constructor ()
      ensures last == [None, None, None]
    {
      last := [None, None, None];
    }

    method CommitHeader(h: MediaFirstHeader)
      requires h.slot < 3
      modifies this
      ensures last == Commit(old(last), h)
    {
      last := last[h.slot := Some(h.current)];
    }
  }

  method EncodeMediaBody(out: Buffer, ft: FrameType, ts: u32, payload: bytes, chunkSize: nat) returns (r: Result<()>)
    requires out.Valid()
    modifies out
    ensures out.Valid() && out.Limit() == old(out.Limit())
    ensures r == if old(out.HasRoom(|MediaBody(ft, ts, payload, chunkSize)|)) then Ok(()) else Err(Internal)
    ensures out.Contents() == if r.Ok? then old(out.Contents()) + MediaBody(ft, ts, payload, chunkSize)
                              else old(out.Contents())
  {
    var ext := if ts >= EXTENDED_TIMESTAMP_MARKER then Some(ts) else None;
    r := WriteChunkBody(out, MediaChunkStream(ft).csid, payload, chunkSize, ext);
  }

  /** Outcome of sending a media message: all three parts change, or none does. */
  datatype Sent = Sent(result: Result<()>, queue: bytes, last: Tracker)

  /** `write_media_message`: room is reserved from the computed lengths. */
  function SendDirect(
    queue: bytes, limit: nat, last: Tracker, compact: bool, info: MediaInfo, payload: bytes, chunkSize: nat): Sent
  {
    match Choose(last, compact, info, |payload|)
    case Err(e) => Sent(Err(e), queue, last)
    case Ok(h) =>
      var size := |HeaderBytes(h)| + |MediaBody(info.frameType, info.timestamp, payload, chunkSize)|;
      if |queue| + size > limit then Sent(Err(Internal), queue, last)
      else Sent(Ok(()), queue + (HeaderBytes(h) + MediaBody(info.frameType, info.timestamp, payload, chunkSize)),
                Commit(last, h))
  }

  method WriteMediaMessage(
    out: Buffer, tracker: MediaHeaderTracker, compact: bool, info: MediaInfo, payload: bytes, chunkSize: nat)
    returns (r: Result<()>)
    requires out.Valid()
    modifies out, tracker
    ensures out.Valid() && out.Limit() == old(out.Limit())
    ensures Sent(r, out.Contents(), tracker.last)
         == SendDirect(old(out.Contents()), old(out.Limit()), old(tracker.last), compact, info, payload, chunkSize)
  {
    var chosen := Choose(tracker.last, compact, info, |payload|);
    if chosen.Err? {
      return Err(chosen.error);
    }
    var h := chosen.value;
    var ext := if info.timestamp >= EXTENDED_TIMESTAMP_MARKER then Some(info.timestamp) else None;
    r := AppendMessage(out, h.csid, h.fmt, h.tsField, h.current.msgTypeId, h.current.msgStreamId,
                       payload, chunkSize, ext);
    if r.Ok? {
      tracker.CommitHeader(h);
    }
  }

  /** `write_media_message_with_body`: one receiver's header in front of a body encoded elsewhere. */
  function SendShared(
    queue: bytes, limit: nat, last: Tracker, compact: bool, info: MediaInfo, payloadLen: nat, body: bytes): Sent
  {
    match Choose(last, compact, info, payloadLen)
    case Err(e) => Sent(Err(e), queue, last)
    case Ok(h) =>
      if |queue| + FirstHeaderLen(h.csid, h.fmt, h.tsField) + |body| > limit
      then Sent(Err(Internal), queue, last)
      else Sent(Ok(()), queue + HeaderBytes(h) + body, Commit(last, h))
  }

  method WriteMediaMessageWithBody(
    out: Buffer, tracker: MediaHeaderTracker, compact: bool, info: MediaInfo, payloadLen: nat, body: bytes)
    returns (r: Result<()>)
    requires out.Valid()
    modifies out, tracker
    ensures out.Valid() && out.Limit() == old(out.Limit())
    ensures Sent(r, out.Contents(), tracker.last)
         == SendShared(old(out.Contents()), old(out.Limit()), old(tracker.last), compact, info, payloadLen, body)
  {
    var chosen := Choose(tracker.last, compact, info, payloadLen);
    if chosen.Err? {
      return Err(chosen.error);
    }
    var h := chosen.value;
    var reserved := out.Reserve(FirstHeaderLen(h.csid, h.fmt, h.tsField) + |body|);
    if reserved.Err? {
      return reserved;
    }
    var header := WriteFirstHeader(out, h.csid, h.fmt, h.tsField, h.current.msgLength, h.current.msgTypeId,
                                   h.current.msgStreamId);
    if header.Err? {
      assert false;
      return header;
    }
    var w := out.Write(body);
    if w.Err? {
      assert false;
      return Err(Internal);
    }
    tracker.CommitHeader(h);
    return Ok(());
  }

  /** With the body it would have encoded itself, a receiver gets what it would have sent itself. */
  lemma SharedSendIsDirectSend(
    queue: bytes, limit: nat, last: Tracker, compact: bool, info: MediaInfo, payload: bytes, chunkSize: nat)
    ensures SendShared(queue, limit, last, compact, info, |payload|,
                       MediaBody(info.frameType, info.timestamp, payload, chunkSize))
         == SendDirect(queue, limit, last, compact, info, payload, chunkSize)
  {
    var body := MediaBody(info.frameType, info.timestamp, payload, chunkSize);
    match Choose(last, compact, info, |payload|)
    case Err(_) =>
    case Ok(h) => assert queue + HeaderBytes(h) + body == queue + (HeaderBytes(h) + body);
  }

  // Staging bound of the client (src/client/mod.rs)

  const DEFAULT_MAX_MSG_LENGTH: nat := 4 * 1024 * 1024
  const MAX_RECV_BUFFER_PAYLOAD_BYTES: nat := 2 * DEFAULT_MAX_MSG_LENGTH
  const MIN_PRACTICAL_CHUNK_SIZE: nat := 128
  const MAX_CHUNK_HEADER_OVERHEAD_BYTES: nat := 7
  const FIRST_CHUNK_EXTRA_OVERHEAD_BYTES: nat := 11
  const MAX_RECV_BUFFER_BYTES: nat :=
    MAX_RECV_BUFFER_PAYLOAD_BYTES
    + (MAX_RECV_BUFFER_PAYLOAD_BYTES / MIN_PRACTICAL_CHUNK_SIZE + 1) * MAX_CHUNK_HEADER_OVERHEAD_BYTES
    + 2 * FIRST_CHUNK_EXTRA_OVERHEAD_BYTES

  /** A message of at most the default length takes at most this much wire. */
  lemma MessageWireBound(csid: u32, ts: u32, typeId: byte, streamId: u32, payload: bytes, chunkSize: nat)
    requires |payload| <= DEFAULT_MAX_MSG_LENGTH && chunkSize >= MIN_PRACTICAL_CHUNK_SIZE
    ensures |MessageWire(csid, ts, typeId, streamId, payload, chunkSize)|
         <= 18 + DEFAULT_MAX_MSG_LENGTH + 32767 * MAX_CHUNK_HEADER_OVERHEAD_BYTES
  {
    var ext := ExtOf(ts);
    ChunkBodySize(csid, payload, chunkSize, ext);
    ContinuationsAntitone(|payload|, MIN_PRACTICAL_CHUNK_SIZE, chunkSize);
    ContinuationsMonotone(|payload|, DEFAULT_MAX_MSG_LENGTH, MIN_PRACTICAL_CHUNK_SIZE);
    ContinuationsIsQuotient(DEFAULT_MAX_MSG_LENGTH, MIN_PRACTICAL_CHUNK_SIZE);
    var n := Continuations(|payload|, chunkSize);
    assert n <= 32767;
    MulMonotone(n, 32767, |ContinuationHeader(csid, ext)|);
  }

  /** The receive-buffer cap never refuses two messages of the largest accepted length. */
  lemma TwoLargestMessagesFit(
    csid: u32, ts: u32, typeId: byte, streamId: u32, payload: bytes,
    csid': u32, ts': u32, typeId': byte, streamId': u32, payload': bytes, chunkSize: nat)
    requires |payload| <= DEFAULT_MAX_MSG_LENGTH && |payload'| <= DEFAULT_MAX_MSG_LENGTH
    requires chunkSize >= MIN_PRACTICAL_CHUNK_SIZE
    ensures |MessageWire(csid, ts, typeId, streamId, payload, chunkSize)
             + MessageWire(csid', ts', typeId', streamId', payload', chunkSize)| <= MAX_RECV_BUFFER_BYTES
  {
    MessageWireBound(csid, ts, typeId, streamId, payload, chunkSize);
    MessageWireBound(csid', ts', typeId', streamId', payload', chunkSize);
  }
}
