/**
 The message writers of src/chunk/writer.rs, appending to a `Buffer`. Every
 writer either appends exactly its message or changes nothing.
 */
module ChunkWriter {
  import opened Bytes
  import opened Buffers
  import opened ChunkWire

  /** Header of an outbound message; `msgLength` is what the header announces. */
  datatype OutMessage = OutMessage(
    csid: u32, fmt: byte, timestamp: u32, msgLength: u32, msgTypeId: byte, msgStreamId: u32)

  predicate CsidInRange(csid: u32) {
    RTMP_MIN_CSID <= csid <= RTMP_MAX_CSID
  }

  /** The extended-timestamp field that continuation chunks repeat. */
  function ExtOf(ts: u32): Option<u32> {
    if ts >= EXTENDED_TIMESTAMP_MARKER then Some(ts) else None
  }

  /** A whole fmt=0 message on the wire. */
  function MessageWire(csid: u32, ts: u32, typeId: byte, streamId: u32, payload: bytes, chunkSize: nat): bytes
    requires chunkSize > 0
  {
    FirstHeader(csid, 0, ts, |payload|, typeId, streamId) + ChunkBody(csid, payload, chunkSize, ExtOf(ts))
  }

  /** Appends a first-chunk header, assembled field by field. */
  method WriteFirstHeader(
    out: Buffer, csid: u32, fmt: byte, ts: u32, msgLength: u32, msgTypeId: byte, msgStreamId: u32)
    returns (r: Result<()>)
    requires out.Valid()
    modifies out
    ensures out.Valid() && out.Limit() == old(out.Limit())
    ensures r == if fmt > 2 then Err(Internal)
                 else if !CsidInRange(csid) then Err(BadChunk)
                 else if !old(out.HasRoom(FirstHeaderLen(csid, fmt, ts))) then Err(Internal)
                 else Ok(())
    ensures out.Contents() == if r.Ok? then old(out.Contents())
                                            + FirstHeader(csid, fmt, ts, msgLength, msgTypeId, msgStreamId)
                              else old(out.Contents())
  {
    if fmt > 2 {
      return Err(Internal);
    }
    if csid > RTMP_MAX_CSID {
      return Err(BadChunk);
    }
    if csid < RTMP_MIN_CSID {
      return Err(BadChunk);
    }
    var extTs := ts >= EXTENDED_TIMESTAMP_MARKER;
    var fields := Be24(if extTs then EXTENDED_TIMESTAMP_MARKER else ts);
    if fmt <= 1 {
      fields := fields + (Be24(msgLength) + [msgTypeId]);
    }
    if fmt == 0 {
      fields := fields + Le32(msgStreamId);
    }
    assert fields == MessageFields(fmt, ts, msgLength, msgTypeId, msgStreamId);
    var hdr := BasicHeader(csid, fmt) + fields;
    if extTs {
      hdr := hdr + Be32(ts);
    }
    assert hdr == FirstHeader(csid, fmt, ts, msgLength, msgTypeId, msgStreamId);
    var w := out.Write(hdr);
    if w.Err? {
      return Err(Internal);
    }
    return Ok(());
  }

  /** The size to reserve for a body, computed from lengths alone: exactly the size of what is written. */
  method BodyLen(csid: u32, payloadLen: nat, chunkSize: nat, ext: Option<u32>, ghost payload: bytes) returns (n: nat)
    requires |payload| == payloadLen
    ensures n == |ChunkBody(csid, payload, EffectiveChunkSize(chunkSize), ext)|
  {
    ChunkBodyLenExact(csid, payload, chunkSize, ext);
    n := ChunkBodyLen(csid, payloadLen, chunkSize, ext.Some?);
  }

  /** Appends a payload in chunks, with a continuation header before every chunk but the first. */
  method WriteChunkBody(out: Buffer, csid: u32, payload: bytes, chunkSize: nat, ext: Option<u32>)
    returns (r: Result<()>)
    requires out.Valid()
    modifies out
    ensures out.Valid() && out.Limit() == old(out.Limit())
    ensures r == if !CsidInRange(csid) then Err(BadChunk)
                 else if !old(out.HasRoom(|ChunkBody(csid, payload, EffectiveChunkSize(chunkSize), ext)|)) then Err(Internal)
                 else Ok(())
    ensures out.Contents() == if r.Ok? then old(out.Contents())
                                            + ChunkBody(csid, payload, EffectiveChunkSize(chunkSize), ext)
                              else old(out.Contents())
  {
    if csid > RTMP_MAX_CSID {
      return Err(BadChunk);
    }
    if csid < RTMP_MIN_CSID {
      return Err(BadChunk);
    }
    var cs := EffectiveChunkSize(chunkSize);
    var need := BodyLen(csid, |payload|, cs, ext, payload);
    var reserved := out.Reserve(need);
    if reserved.Err? {
      return Err(Internal);
    }
    var chdr := ContinuationHeader(csid, ext);
    var rest := payload;
    ghost var target := out.Contents() + ChunkBody(csid, payload, cs, ext);
    while rest != []
      invariant out.Valid() && out.Contents() + ChunkBody(csid, rest, cs, ext) == target
      invariant out.HasRoom(|target| - |out.Contents()|)
      invariant out.Limit() == old(out.Limit())
      decreases |rest|
    {
      var n := Min(cs, |rest|);
      var chunk := rest[..n];
      BodyUnfold(csid, rest, cs, ext);
      ghost var before := out.Contents();
      rest := rest[n..];
      var w := out.Write(chunk);
      if w.Err? {
        assert false;
        return Err(Internal);
      }
      if rest != [] {
        AppendAssoc(before, chunk, chdr, ChunkBody(csid, rest, cs, ext));
        var w' := out.Write(chdr);
        if w'.Err? {
          assert false;
          return Err(Internal);
        }
      }
    }
    return Ok(());
  }

  lemma BodyUnfold(csid: u32, rest: bytes, cs: nat, ext: Option<u32>)
    requires cs > 0 && rest != []
    ensures var n := Min(cs, |rest|);
            ChunkBody(csid, rest, cs, ext)
            == if rest[n..] == [] then rest[..n]
               else rest[..n] + ContinuationHeader(csid, ext) + ChunkBody(csid, rest[n..], cs, ext)
  {
  }

  lemma AppendAssoc(a: bytes, b: bytes, c: bytes, d: bytes)
    ensures a + (b + c + d) == ((a + b) + c) + d
  {
  }

  /**
   Reserves room for a whole message and then writes its header and its body:
   after the reservation neither write can fail, so the message is appended
   entirely or not at all.
   */
  method AppendMessage(
    out: Buffer, csid: u32, fmt: Fmt, tsField: u32, typeId: byte, streamId: u32,
    payload: bytes, chunkSize: nat, ext: Option<u32>)
    returns (r: Result<()>)
    requires out.Valid() && fmt <= 2 && CsidInRange(csid) && |payload| <= RTMP_WIRE_MAX_MSG_LENGTH
    modifies out
    ensures out.Valid() && out.Limit() == old(out.Limit())
    ensures var wire := FirstHeader(csid, fmt, tsField, |payload|, typeId, streamId)
                        + ChunkBody(csid, payload, EffectiveChunkSize(chunkSize), ext);
            && r == (if old(out.HasRoom(|wire|)) then Ok(()) else Err(Internal))
            && out.Contents() == if r.Ok? then old(out.Contents()) + wire else old(out.Contents())
  {
    ghost var headerBytes := FirstHeader(csid, fmt, tsField, |payload|, typeId, streamId);
    ghost var bodyBytes := ChunkBody(csid, payload, EffectiveChunkSize(chunkSize), ext);
    ghost var before := out.Contents();
    assert before + (headerBytes + bodyBytes) == (before + headerBytes) + bodyBytes;
    var body := BodyLen(csid, |payload|, chunkSize, ext, payload);
    assert |headerBytes + bodyBytes| == FirstHeaderLen(csid, fmt, tsField) + body;
    var reserved := out.Reserve(FirstHeaderLen(csid, fmt, tsField) + body);
    if reserved.Err? {
      return Err(Internal);
    }
    var header := WriteFirstHeader(out, csid, fmt, tsField, |payload|, typeId, streamId);
    if header.Err? {
      assert false;
      return header;
    }
    r := WriteChunkBody(out, csid, payload, chunkSize, ext);
  }

  /** What `ChunkWrite` refuses before it looks at the buffer, in the order of the source. */
  function Refusal(msg: OutMessage, payload: bytes, payloadLen: nat): Option<ErrorCode> {
    if msg.csid > RTMP_MAX_CSID then Some(BadChunk)
    else if msg.csid < RTMP_MIN_CSID then Some(BadChunk)
    else if msg.fmt != 0 then Some(Internal)
    else if msg.msgLength > RTMP_WIRE_MAX_MSG_LENGTH then Some(Internal)
    else if payloadLen != msg.msgLength then Some(Internal)
    else if payloadLen > |payload| then Some(Internal)
    else None
  }

  /** Appends a whole fmt=0 message, or nothing. */
  method ChunkWrite(out: Buffer, msg: OutMessage, payload: bytes, payloadLen: nat, chunkSize: nat)
    returns (r: Result<()>)
    requires out.Valid()
    modifies out
    ensures out.Valid() && out.Limit() == old(out.Limit())
    ensures r == match Refusal(msg, payload, payloadLen) {
                   case Some(e) => Err(e)
                   case None =>
                     if old(out.HasRoom(|MessageWire(msg.csid, msg.timestamp, msg.msgTypeId, msg.msgStreamId,
                                                     payload[..payloadLen], EffectiveChunkSize(chunkSize))|))
                     then Ok(()) else Err(Internal)
                 }
    ensures out.Contents()
         == if r.Err? then old(out.Contents())
            else old(out.Contents()) + MessageWire(msg.csid, msg.timestamp, msg.msgTypeId, msg.msgStreamId,
                                                   payload[..payloadLen], EffectiveChunkSize(chunkSize))
    decreases if chunkSize == 0 then 1 else 0
  {
    if chunkSize == 0 {
      r := ChunkWrite(out, msg, payload, payloadLen, 128);
      return;
    }
    if Refusal(msg, payload, payloadLen).Some? {
      return Err(Refusal(msg, payload, payloadLen).value);
    }
    r := AppendMessage(out, msg.csid, 0, msg.timestamp, msg.msgTypeId, msg.msgStreamId,
                       payload[..payloadLen], chunkSize, ExtOf(msg.timestamp));
  }
}
