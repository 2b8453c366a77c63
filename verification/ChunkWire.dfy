/**
 The chunk wire format of src/chunk/writer.rs (sections 5.3.1.1 to 5.3.1.3 of
 RTMP 1.0): basic headers, first-chunk headers and bodies split by fmt=3
 continuation headers, with their exact sizes.
 */
module ChunkWire {
  import opened Bytes

  type Fmt = x: int | 0 <= x < 4

  const EXTENDED_TIMESTAMP_MARKER: u32 := 0xFFFFFF
  const RTMP_WIRE_MAX_MSG_LENGTH: nat := 0xFF_FFFF
  const RTMP_MIN_CSID: nat := 2
  const RTMP_MAX_CSID: nat := 65599
  const DEFAULT_CHUNK_SIZE: nat := 128

  /** The two top bits are the format; the low six select the header's own length. */
  function BasicHeader(csid: u32, fmt: Fmt): (h: bytes)
    ensures |h| == BasicHeaderLen(csid)
  {
    if csid < 64 then [fmt * 64 + csid]
    else if csid < 320 then [fmt * 64, csid - 64]
    else [fmt * 64 + 1, (csid - 64) % 0x100, (csid - 64) / 0x100 % 0x100]
  }

  function BasicHeaderLen(csid: u32): (n: nat) {
    if csid < 64 then 1 else if csid < 320 then 2 else 3
  }

  datatype Basic = Basic(fmt: Fmt, csid: u32, size: nat)

  /** The reader's view of a basic header; `None` means that bytes are missing. */
  function DecodeBasic(b: bytes): (r: Option<Basic>)
    ensures r.Some? ==> 1 <= r.value.size <= |b| && r.value.size <= 3
  {
    if |b| < 1 then None
    else
      var fmt, low := b[0] / 64, b[0] % 64;
      if low == 0 then
        if |b| < 2 then None else Some(Basic(fmt, 64 + (b[1] as int), 2))
      else if low == 1 then
        if |b| < 3 then None else Some(Basic(fmt, 64 + Shift(b[2], b[1]), 3))
      else
        Some(Basic(fmt, low, 1))
  }

  /**
   A basic header decodes to the id it was built from exactly for the ids the
   writer accepts: below 2 it selects a longer form, above 65599 it aliases.
   */
  lemma BasicHeaderDecodes(csid: u32, fmt: Fmt, rest: bytes)
    requires |rest| >= 2
    ensures DecodeBasic(BasicHeader(csid, fmt) + rest) == Some(Basic(fmt, csid, BasicHeaderLen(csid)))
       <==> RTMP_MIN_CSID <= csid <= RTMP_MAX_CSID
  {
    var h := BasicHeader(csid, fmt);
    var b := h + rest;
    assert b[0] == h[0] && b[0] / 64 == fmt;
    if 320 <= csid {
      assert b[1] == h[1] && b[2] == h[2];
      assert Shift(b[2], b[1]) == (csid - 64) % 0x1_0000;
    }
  }

  lemma BasicHeaderRoundTrip(csid: u32, fmt: Fmt, rest: bytes)
    requires RTMP_MIN_CSID <= csid <= RTMP_MAX_CSID
    ensures DecodeBasic(BasicHeader(csid, fmt) + rest) == Some(Basic(fmt, csid, BasicHeaderLen(csid)))
  {
    var b := BasicHeader(csid, fmt) + rest;
    if 320 <= csid {
      assert Shift(b[2], b[1]) == csid - 64;
    }
  }

  function TimestampField(ts: u32): nat {
    if ts >= EXTENDED_TIMESTAMP_MARKER then EXTENDED_TIMESTAMP_MARKER else ts
  }

  function ExtField(ts: u32): bytes {
    if ts >= EXTENDED_TIMESTAMP_MARKER then Be32(ts) else []
  }

  /** The message header that follows the basic header, without the extended timestamp. */
  function MessageFields(fmt: Fmt, ts: u32, len: nat, typeId: byte, streamId: u32): (h: bytes)
    requires fmt <= 2
    ensures |h| == MessageFieldsLen(fmt)
  {
    Be24(TimestampField(ts))
    + (if fmt <= 1 then Be24(len) + [typeId] else [])
    + (if fmt == 0 then Le32(streamId) else [])
  }

  function MessageFieldsLen(fmt: Fmt): nat {
    match fmt
    case 0 => 11
    case 1 => 7
    case 2 => 3
    case _ => 0
  }

  function FirstHeader(csid: u32, fmt: Fmt, ts: u32, len: nat, typeId: byte, streamId: u32): (h: bytes)
    requires fmt <= 2
    ensures |h| == FirstHeaderLen(csid, fmt, ts)
  {
    BasicHeader(csid, fmt) + MessageFields(fmt, ts, len, typeId, streamId) + ExtField(ts)
  }

  function FirstHeaderLen(csid: u32, fmt: Fmt, ts: u32): nat {
    BasicHeaderLen(csid)
    + MessageFieldsLen(fmt)
    + if fmt < 3 && ts >= EXTENDED_TIMESTAMP_MARKER then 4 else 0
  }

  /** The header of a continuation chunk; it repeats the extended timestamp, if any. */
  function ContinuationHeader(csid: u32, ext: Option<u32>): bytes {
    BasicHeader(csid, 3) + (if ext.Some? then Be32(ext.value) else [])
  }

  /** A chunk size of zero means the default. */
  function EffectiveChunkSize(chunkSize: nat): (n: nat)
    ensures n > 0
  {
    if chunkSize == 0 then DEFAULT_CHUNK_SIZE else chunkSize
  }

  /** A payload cut into chunks of at most `chunkSize` bytes. */
  function ChunkBody(csid: u32, payload: bytes, chunkSize: nat, ext: Option<u32>): bytes
    requires chunkSize > 0
    decreases |payload|
  {
    if |payload| <= chunkSize then payload
    else payload[..chunkSize] + ContinuationHeader(csid, ext)
         + ChunkBody(csid, payload[chunkSize..], chunkSize, ext)
  }

  function ChunkBodyLen(csid: u32, payloadLen: nat, chunkSize: nat, ext: bool): nat {
    var continuations: nat := SatSub(payloadLen, 1) / EffectiveChunkSize(chunkSize);
    var header: nat := BasicHeaderLen(csid) + if ext then 4 else 0;
    payloadLen + continuations * header
  }

  /** How many continuation headers a payload needs. */
  function Continuations(payloadLen: nat, chunkSize: nat): nat
    requires chunkSize > 0
  {
    if payloadLen <= chunkSize then 0 else 1 + Continuations(payloadLen - chunkSize, chunkSize)
  }

  lemma {:induction false} ContinuationsIsQuotient(payloadLen: nat, chunkSize: nat)
    requires chunkSize > 0
    ensures Continuations(payloadLen, chunkSize) == SatSub(payloadLen, 1) / chunkSize
  {
    if payloadLen <= chunkSize {
      DivUnique(SatSub(payloadLen, 1), chunkSize, 0, SatSub(payloadLen, 1));
    } else {
      ContinuationsIsQuotient(payloadLen - chunkSize, chunkSize);
      var n := payloadLen - chunkSize - 1;
      var q := n / chunkSize;
      DivUnique(n + chunkSize, chunkSize, q + 1, n % chunkSize);
    }
  }

  lemma {:induction false} ChunkBodySize(csid: u32, payload: bytes, chunkSize: nat, ext: Option<u32>)
    requires chunkSize > 0
    ensures |ChunkBody(csid, payload, chunkSize, ext)|
         == |payload| + Continuations(|payload|, chunkSize) * |ContinuationHeader(csid, ext)|
    decreases |payload|
  {
    if |payload| > chunkSize {
      ChunkBodySize(csid, payload[chunkSize..], chunkSize, ext);
      Distribute(Continuations(|payload| - chunkSize, chunkSize), |ContinuationHeader(csid, ext)|);
    }
  }

  /** The size computed before writing is the size of what is written. */
  lemma ChunkBodyLenExact(csid: u32, payload: bytes, chunkSize: nat, ext: Option<u32>)
    ensures |ChunkBody(csid, payload, EffectiveChunkSize(chunkSize), ext)|
         == ChunkBodyLen(csid, |payload|, chunkSize, ext.Some?)
  {
    ContinuationsIsQuotient(|payload|, EffectiveChunkSize(chunkSize));
    ChunkBodySize(csid, payload, EffectiveChunkSize(chunkSize), ext);
  }

  lemma Distribute(n: nat, h: nat)
    ensures (1 + n) * h == h + n * h
  {
  }

  lemma MulMonotone(a: nat, b: nat, d: nat)
    requires a <= b
    ensures a * d <= b * d
  {
  }

  lemma DivUnique(n: nat, d: nat, q: nat, r: nat)
    requires r < d && n == q * d + r
    ensures n / d == q
  {
    var q' := n / d;
    assert n == q' * d + n % d;
    if q' < q {
      MulMonotone(q' + 1, q, d);
      assert false;
    } else if q < q' {
      MulMonotone(q + 1, q', d);
      assert false;
    }
  }

  /** Larger chunks need no more continuation headers. */
  lemma {:induction false} ContinuationsAntitone(payloadLen: nat, small: nat, large: nat)
    requires 0 < small <= large
    ensures Continuations(payloadLen, large) <= Continuations(payloadLen, small)
    decreases payloadLen
  {
    if payloadLen > large {
      ContinuationsAntitone(payloadLen - large, small, large);
      ContinuationsMonotone(payloadLen - large, payloadLen - small, small);
    }
  }

  lemma {:induction false} ContinuationsMonotone(m: nat, n: nat, chunkSize: nat)
    requires 0 < chunkSize && m <= n
    ensures Continuations(m, chunkSize) <= Continuations(n, chunkSize)
    decreases n
  {
    if m > chunkSize {
      ContinuationsMonotone(m - chunkSize, n - chunkSize, chunkSize);
    }
  }
}
