/** What the reader makes of the bytes the writer emits, chunk by chunk. */
module Decoding {
  import opened Bytes
  import opened ChunkWire
  import opened ChunkReader

  lemma SliceInside(a: bytes, b: bytes, c: bytes, i: nat, j: nat)
    requires i <= j <= |b|
    ensures (a + b + c)[|a| + i..|a| + j] == b[i..j]
  {
  }

  lemma FromBe24At(s: bytes, i: nat)
    requires i + 3 <= |s|
    ensures FromBe24(s[i..]) == FromBe24(s[i..i + 3])
  {
    FieldsAgree(s[i..], s[i..i + 3], 3);
  }

  lemma FromBe32At(s: bytes, i: nat)
    requires i + 4 <= |s|
    ensures FromBe32(s[i..]) == FromBe32(s[i..i + 4])
    ensures FromLe32(s[i..]) == FromLe32(s[i..i + 4])
  {
    FieldsAgree(s[i..], s[i..i + 4], 4);
  }

  /** Where each field lies among the message fields. */
  lemma FieldsAre(fmt: Fmt, ts: u32, len: nat, typeId: byte, streamId: u32)
    requires fmt <= 2
    ensures var f := MessageFields(fmt, ts, len, typeId, streamId);
            && f[0..3] == Be24(TimestampField(ts)) + []
            && (fmt <= 1 ==> f[3..6] == Be24(len) + [] && f[6] == typeId)
            && (fmt == 0 ==> f[7..11] == Le32(streamId) + [])
  {
    hide Be24, Le32;
  }

  /** A buffer whose first chunk, as the reader decodes it, is `c`, with timestamp `ts` and length `len` in its header. */
  ghost predicate StartsWithChunk(b: bytes, fmt: Fmt, ts: u32, len: nat, c: Chunk)
    requires fmt <= 2
  {
    var h := Basic(fmt, c.csid, BasicHeaderLen(c.csid));
    var ext := ts >= EXTENDED_TIMESTAMP_MARKER;
    && DecodeBasic(b) == Some(h)
    && HeaderSize(h, ext) == FirstHeaderLen(c.csid, fmt, ts)
    && HeaderSize(h, ext) + |c.body| <= |b|
    && (FromBe24(b[h.size..]) >= EXTENDED_TIMESTAMP_MARKER <==> ext)
    && (fmt <= 1 ==> FromBe24(b[h.size + 3..]) == len)
    && ChunkAt(b, h, ext, |c.body|) == c
  }

  /** The whole first header reads back from any buffer that starts with it. */
  lemma FirstChunkDecodes(
    csid: u32, fmt: Fmt, ts: u32, len: nat, typeId: byte, streamId: u32, body: bytes, rest: bytes, b: bytes)
    requires RTMP_MIN_CSID <= csid <= RTMP_MAX_CSID && fmt <= 2 && len <= RTMP_WIRE_MAX_MSG_LENGTH
    requires b == FirstHeader(csid, fmt, ts, len, typeId, streamId) + body + rest
    ensures StartsWithChunk(b, fmt, ts, len, Chunk(csid, fmt, ts, ts >= EXTENDED_TIMESTAMP_MARKER,
                                                   if fmt <= 1 then len else 0, if fmt <= 1 then typeId else 0,
                                                   if fmt == 0 then streamId else 0, body))
  {
    hide BasicHeader, MessageFields, FromBe24, FromBe32, FromLe32, Be24, Be32, Le32, DecodeBasic, BasicHeaderLen;
    var basic, f, x := BasicHeader(csid, fmt), MessageFields(fmt, ts, len, typeId, streamId), ExtField(ts);
    var tail := x + body + rest;
    assert b == basic + f + tail == basic + (f + tail);
    BasicHeaderRoundTrip(csid, fmt, f + tail);
    FieldsAre(fmt, ts, len, typeId, streamId);
    Be24Decodes(TimestampField(ts), []);
    Be24Decodes(len, []);
    Le32Decodes(streamId, []);
    FieldsOnWire(basic, f, tail, fmt);
    BodyOnTheEnd(basic + f, ts, body, rest) by {
      assert b == (basic + f) + x + body + rest;
    }
  }

  /** Fields keep their meaning behind a basic header and in front of anything. */
  lemma FieldsOnWire(basic: bytes, f: bytes, tail: bytes, fmt: Fmt)
    requires fmt <= 2 && |f| == MessageFieldsLen(fmt)
    ensures var b, n := basic + f + tail, |basic|;
            && FromBe24(b[n..]) == FromBe24(f[0..3])
            && (fmt <= 1 ==> FromBe24(b[n + 3..]) == FromBe24(f[3..6]) && b[n + 6] == f[6])
            && (fmt == 0 ==> FromLe32(b[n + 7..]) == FromLe32(f[7..11]))
  {
    hide FromBe24, FromLe32;
    FieldAt(basic, f, tail, 0, 3);
    if fmt <= 1 {
      FieldAt(basic, f, tail, 3, 6);
    }
    if fmt == 0 {
      FieldAt(basic, f, tail, 7, 11);
    }
  }

  /** The extended timestamp and the body read back behind the fields. */
  lemma BodyOnTheEnd(head: bytes, ts: u32, body: bytes, rest: bytes)
    ensures var b, x := head + ExtField(ts) + body + rest, ExtField(ts);
            && (ts >= EXTENDED_TIMESTAMP_MARKER ==> FromBe32(b[|head|..]) == ts)
            && b[|head| + |x|..|head| + |x| + |body|] == body
  {
    hide FromBe32, Be32;
    var x := ExtField(ts);
    var b := head + x + body + rest;
    SliceInside(head + x, body, rest, 0, |body|);
    if ts >= EXTENDED_TIMESTAMP_MARKER {
      assert b == head + x + (body + rest);
      SliceInside(head, x, body + rest, 0, 4);
      FromBe32At(b, |head|);
      Be32Decodes(ts, []);
      assert x == Be32(ts) + [];
    }
  }

  /** A field of three or four bytes inside a buffer. */
  lemma FieldAt(a: bytes, f: bytes, c: bytes, i: nat, j: nat)
    requires i <= j <= |f|
    ensures j - i == 3 ==> FromBe24((a + f + c)[|a| + i..]) == FromBe24(f[i..j])
    ensures j - i == 4 ==> FromLe32((a + f + c)[|a| + i..]) == FromLe32(f[i..j])
  {
    SliceInside(a, f, c, i, j);
    if j - i == 3 {
      FromBe24At(a + f + c, |a| + i);
    }
    if j - i == 4 {
      FromBe32At(a + f + c, |a| + i);
    }
  }

  /** A continuation chunk reads back under the stream's inherited extended-timestamp flag. */
  lemma ContinuationDecodes(csid: u32, ext: Option<u32>, body: bytes, rest: bytes, b: bytes)
    requires RTMP_MIN_CSID <= csid <= RTMP_MAX_CSID
    requires b == ContinuationHeader(csid, ext) + body + rest
    ensures var h := Basic(3, csid, BasicHeaderLen(csid));
            && DecodeBasic(b) == Some(h)
            && HeaderSize(h, ext.Some?) == |ContinuationHeader(csid, ext)|
            && HeaderSize(h, ext.Some?) + |body| <= |b|
            && ChunkAt(b, h, ext.Some?, |body|)
               == Chunk(csid, 3, if ext.Some? then ext.value else 0, ext.Some?, 0, 0, 0, body)
  {
    hide BasicHeader, FromBe24, FromBe32, Be32, DecodeBasic, BasicHeaderLen;
    var basic, x := BasicHeader(csid, 3), if ext.Some? then Be32(ext.value) else [];
    assert b == basic + (x + body + rest);
    BasicHeaderRoundTrip(csid, 3, x + body + rest);
    SliceInside(basic + x, body, rest, 0, |body|);
    if ext.Some? {
      assert b == basic + x + (body + rest);
      SliceInside(basic, x, body + rest, 0, 4);
      FromBe32At(b, |basic|);
      Be32Decodes(ext.value, []);
      assert x == Be32(ext.value) + [];
    }
  }
}
