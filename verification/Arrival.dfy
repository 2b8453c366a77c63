/** One whole message on the wire, read by a receiver whose streams are all between messages. */
module Arrival {
  import opened Bytes
  import opened ChunkWire
  import opened ChunkState
  import opened ChunkReader
  import opened ChunkWriter
  import opened Receivers
  import opened Decoding

  /** No message is in flight and every stream uses the sender's chunk size. */
  ghost predicate Quiet(reg: Registry, cs: nat) {
    && ValidRegistry(reg)
    && reg.defaultChunkSize == cs
    && forall i {:trigger reg.streams[i]} :: 0 <= i < |reg.streams| ==>
         reg.streams[i].bytesRead == 0 && reg.streams[i].chunkSize == cs
  }

  ghost predicate Idle(s: ChunkStream, cs: nat) {
    StreamOk(s) && s.bytesRead == 0 && s.partial == [] && !s.reassembling && s.chunkSize == cs
  }

  lemma {:induction false} NothingInFlight(streams: seq<ChunkStream>)
    requires forall i :: 0 <= i < |streams| ==> streams[i].partial == [] && !streams[i].reassembling
    ensures TotalBytes(streams) == 0 && ActiveCount(streams) == 0
  {
    if streams != [] {
      NothingInFlight(streams[..|streams| - 1]);
    }
  }

  lemma QuietFacts(reg: Registry, cs: nat, csid: u32)
    requires Quiet(reg, cs)
    ensures TotalBytes(reg.streams) == 0 && ActiveCount(reg.streams) == 0
    ensures Idle(StreamFor(reg, csid), cs)
    ensures Get(reg, csid).Some? ==> Get(reg, csid) == Some(StreamFor(reg, csid))
  {
    forall i | 0 <= i < |reg.streams|
      ensures reg.streams[i].partial == [] && !reg.streams[i].reassembling
    {
      assert StreamOk(reg.streams[i]);
    }
    NothingInFlight(reg.streams);
    InUse(reg, csid);
  }

  lemma QuietPut(reg: Registry, cs: nat, s: ChunkStream)
    requires Quiet(reg, cs) && Idle(s, cs)
    requires Get(reg, s.csid).None? ==> |reg.streams| < MAX_CHUNK_STREAMS
    ensures Quiet(Put(reg, s), cs)
  {
    QuietFacts(reg, cs, s.csid);
    PutValid(reg, s);
  }

  /** The receiver can take a message of this length on this stream. */
  ghost predicate CanTake(reg: Registry, csid: u32, len: nat) {
    && len <= reg.maxMsgLength && len <= reg.maxReassemblyBytes && reg.maxActiveCsids >= 1
    && (Get(reg, csid).None? ==> |reg.streams| < MAX_CHUNK_STREAMS)
  }

  /** The header can be understood from what the stream already knows. */
  ghost predicate Decodable(reg: Registry, csid: u32, fmt: Fmt, len: nat) {
    && fmt <= 2
    && (fmt >= 1 ==> Get(reg, csid).Some? && Get(reg, csid).value.hasMessageHeader)
    && (fmt == 2 ==> Get(reg, csid).value.msgLength == len)
  }

  function FirstChunk(csid: u32, fmt: Fmt, ts: u32, len: nat, typeId: byte, streamId: u32, body: bytes): Chunk {
    Chunk(csid, fmt, ts, ts >= EXTENDED_TIMESTAMP_MARKER, if fmt <= 1 then len else 0,
          if fmt <= 1 then typeId else 0, if fmt == 0 then streamId else 0, body)
  }

  /** The reader takes the first chunk of a message off the wire. */
  lemma ReadFirst(
    reg: Registry, cs: nat, csid: u32, fmt: Fmt, ts: u32, len: nat, typeId: byte, streamId: u32, body: bytes, b: bytes)
    requires Quiet(reg, cs) && len <= RTMP_WIRE_MAX_MSG_LENGTH
    requires CanTake(reg, csid, len) && Decodable(reg, csid, fmt, len)
    requires |body| == Min(len, cs)
    requires StartsWithChunk(b, fmt, ts, len, FirstChunk(csid, fmt, ts, len, typeId, streamId, body))
    ensures PlanFor(reg, b) == Accept(FirstChunk(csid, fmt, ts, len, typeId, streamId, body),
                                      FirstHeaderLen(csid, fmt, ts) + |body|)
  {
    hide FromBe24, FromBe32, FromLe32, DecodeBasic, Get, TotalBytes, ActiveCount, ChunkAt;
    QuietFacts(reg, cs, csid);
  }

  /** A stream in the middle of the message `payload`, with `k` bytes of it read. */
  ghost predicate Midway(reg: Registry, s: ChunkStream, cs: nat, payload: bytes, k: nat, ext: Option<u32>) {
    && Get(reg, s.csid) == Some(s) && CsidInRange(s.csid)
    && s.chunkSize == cs >= 1 && s.hasMessageHeader && s.reassembling
    && 0 < k < |payload| && s.bytesRead == k && s.partial == payload[..k] && s.msgLength == |payload|
    && s.extTs == ext.Some?
    && TotalBytes(reg.streams) == k
    && |payload| <= reg.maxMsgLength && |payload| <= reg.maxReassemblyBytes
  }

  lemma ReadContinuation(
    reg: Registry, s: ChunkStream, cs: nat, payload: bytes, k: nat, ext: Option<u32>, body: bytes, rest: bytes, b: bytes)
    requires Midway(reg, s, cs, payload, k, ext)
    requires |body| == Min(|payload| - k, cs)
    requires b == ContinuationHeader(s.csid, ext) + body + rest
    ensures PlanFor(reg, b) == Accept(Chunk(s.csid, 3, if ext.Some? then ext.value else 0, ext.Some?, 0, 0, 0, body),
                                      |ContinuationHeader(s.csid, ext)| + |body|)
  {
    hide FromBe24, FromBe32, FromLe32, Be32, DecodeBasic, Get, TotalBytes, ActiveCount, ContinuationHeader, ChunkAt;
    ContinuationDecodes(s.csid, ext, body, rest, b);
  }

  /** A receiver with this record, at this point of a wire. */
  function At(r: Receiver, reg: Registry, unread: bytes): Receiver
    requires r.Running?
  {
    r.(reg := reg, unread := unread)
  }

  /** The receiver after a completed message: the message is recorded and handled, all of it. */
  function Received(r: Receiver, reg: Registry, m: Message, rest: bytes): Receiver
    requires r.Running?
  {
    Deliver(r, reg, m, HandedOf(r.listening, m, None), rest)
  }

  function MessageOf(s: ChunkStream, fmt: Fmt, payload: bytes): Message {
    Message(s.csid, fmt, s.timestamp, |payload|, s.msgTypeId, s.msgStreamId, payload)
  }

  lemma DrainStep(r: Receiver, reg: Registry, b: bytes)
    requires r.Running? && PlanFor(reg, b).Accept?
    ensures var Accept(c, n) := PlanFor(reg, b);
            var a := Advance(StreamFor(reg, c.csid), c);
            Drain(At(r, reg, b))
            == Drain(if a.message.Some? then Received(r, Put(reg, a.stream), a.message.value, b[n..])
                     else At(r, Put(reg, a.stream), b[n..]))
  {
    hide PlanFor, Advance, Put, Handle, HandedOf, StreamFor;
    var now := At(r, reg, b);
    assert CanStep(now);
    assert Drain(now) == Drain(Step(now));
  }

  lemma PutTwice(reg: Registry, s: ChunkStream, t: ChunkStream)
    requires s.csid == t.csid
    ensures Put(Put(reg, s), t) == Put(reg, t)
  {
    FindPut(reg, s, s.csid);
    match Find(reg.streams, s.csid)
    case Some(i) => UpdateTwice(reg.streams, i, s, t);
    case None => assert (reg.streams + [s])[|reg.streams| := t] == reg.streams + [t];
  }

  /** What one continuation chunk does to a stream midway. */
  lemma AdvanceMidway(reg: Registry, s: ChunkStream, cs: nat, payload: bytes, k: nat, ext: Option<u32>, n: nat)
    requires Midway(reg, s, cs, payload, k, ext) && n == Min(|payload| - k, cs)
    ensures var c := Chunk(s.csid, 3, if ext.Some? then ext.value else 0, ext.Some?, 0, 0, 0, payload[k..k + n]);
            var a := Advance(s, c);
            if k + n < |payload| then
              a == Advanced(s.(partial := payload[..k + n], bytesRead := k + n), None)
            else a == Advanced(EmptiedStream(s), Some(MessageOf(s, 3, payload)))
  {
    assert payload[..k] + payload[k..k + n] == payload[..k + n];
    assert payload[..|payload|] == payload;
  }

  lemma MidwayNext(reg: Registry, s: ChunkStream, cs: nat, payload: bytes, k: nat, ext: Option<u32>, n: nat)
    requires Midway(reg, s, cs, payload, k, ext) && 0 < n && k + n < |payload|
    ensures var t := s.(partial := payload[..k + n], bytesRead := k + n);
            Midway(Put(reg, t), t, cs, payload, k + n, ext)
  {
    var t := s.(partial := payload[..k + n], bytesRead := k + n);
    GetPut(reg, t, t.csid);
    var i := Find(reg.streams, s.csid).value;
    TotalUpdate(reg.streams, i, t);
  }

  /** One continuation chunk. */
  lemma NextArrives(
    r: Receiver, reg: Registry, s: ChunkStream, cs: nat, payload: bytes, k: nat, ext: Option<u32>, tail: bytes)
    requires r.Running? && Midway(reg, s, cs, payload, k, ext)
    ensures var n := Min(|payload| - k, cs);
            Drain(At(r, reg, ContinuationHeader(s.csid, ext) + payload[k..k + n] + tail))
            == Drain(if k + n < |payload| then At(r, Put(reg, s.(partial := payload[..k + n], bytesRead := k + n)), tail)
                     else Received(r, Put(reg, EmptiedStream(s)), MessageOf(s, 3, payload), tail))
  {
    hide Drain, PlanFor, Put, Advance, At, Received, ContinuationHeader, TotalBytes, MessageOf;
    var hdr, n := ContinuationHeader(s.csid, ext), Min(|payload| - k, cs);
    var body := payload[k..k + n];
    AdvanceMidway(reg, s, cs, payload, k, ext, n);
    assert StreamFor(reg, s.csid) == s;
    hide Get, StreamFor;
    var b := hdr + body + tail;
    ReadContinuation(reg, s, cs, payload, k, ext, body, tail, b);
    DrainStep(r, reg, b);
    assert b[|hdr| + |body|..] == tail;
  }

  /** The continuation chunks of a message, all of them. */
  lemma {:induction false} RestArrives(
    r: Receiver, reg: Registry, s: ChunkStream, cs: nat, payload: bytes, k: nat, ext: Option<u32>, rest: bytes)
    requires r.Running? && Midway(reg, s, cs, payload, k, ext)
    ensures Drain(At(r, reg, ContinuationHeader(s.csid, ext) + ChunkBody(s.csid, payload[k..], cs, ext) + rest))
         == Drain(Received(r, Put(reg, EmptiedStream(s)), MessageOf(s, 3, payload), rest))
    decreases |payload| - k
  {
    hide Drain, Put, Get, At, Received, ContinuationHeader, TotalBytes, ChunkBody;
    var hdr, n := ContinuationHeader(s.csid, ext), Min(|payload| - k, cs);
    BodySplit(s.csid, payload, k, cs, ext);
    if k + n < |payload| {
      var t := s.(partial := payload[..k + n], bytesRead := k + n);
      var tail := hdr + ChunkBody(s.csid, payload[k + n..], cs, ext) + rest;
      assert hdr + ChunkBody(s.csid, payload[k..], cs, ext) + rest == hdr + payload[k..k + n] + tail;
      NextArrives(r, reg, s, cs, payload, k, ext, tail);
      MidwayNext(reg, s, cs, payload, k, ext, n);
      RestArrives(r, Put(reg, t), t, cs, payload, k + n, ext, rest);
      PutTwice(reg, t, EmptiedStream(t));
      assert EmptiedStream(t) == EmptiedStream(s) && MessageOf(t, 3, payload) == MessageOf(s, 3, payload);
    } else {
      NextArrives(r, reg, s, cs, payload, k, ext, rest);
    }
  }

  lemma BodySplit(csid: u32, payload: bytes, k: nat, cs: nat, ext: Option<u32>)
    requires cs > 0 && k <= |payload|
    ensures var n := Min(|payload| - k, cs);
            ChunkBody(csid, payload[k..], cs, ext)
            == if k + n < |payload| then
                 payload[k..k + n] + ContinuationHeader(csid, ext) + ChunkBody(csid, payload[k + n..], cs, ext)
               else payload[k..k + n]
  {
    var n := Min(|payload| - k, cs);
    assert payload[k..][..n] == payload[k..k + n];
    if k + n < |payload| {
      assert payload[k..][n..] == payload[k + n..];
    }
  }

  /** The stream after a message with this header: between messages again, with the new header context. */
  function StreamAfter(reg: Registry, csid: u32, fmt: Fmt, ts: u32, len: nat, typeId: byte, streamId: u32): ChunkStream {
    ApplyHeader(StreamFor(reg, csid), FirstChunk(csid, fmt, ts, len, typeId, streamId, []))
  }

  lemma AdvanceFirst(
    reg: Registry, cs: nat, csid: u32, fmt: Fmt, ts: u32, len: nat, typeId: byte, streamId: u32, body: bytes)
    requires Quiet(reg, cs) && cs >= 1 && Decodable(reg, csid, fmt, len) && |body| == Min(len, cs)
    requires len <= RTMP_WIRE_MAX_MSG_LENGTH
    ensures var a := Advance(StreamFor(reg, csid), FirstChunk(csid, fmt, ts, len, typeId, streamId, body));
            var t := StreamAfter(reg, csid, fmt, ts, len, typeId, streamId);
            && Idle(t, cs) && t.csid == csid && t.msgLength == len && t.hasMessageHeader
            && t.extTs == (ts >= EXTENDED_TIMESTAMP_MARKER)
            && a == if len <= cs then Advanced(t, Some(MessageOf(t, fmt, body)))
                    else Advanced(t.(partial := body, bytesRead := cs, reassembling := true), None)
  {
    QuietFacts(reg, cs, csid);
    assert [] + body == body;
  }

  lemma MidwayFirst(reg: Registry, cs: nat, t: ChunkStream, payload: bytes, ext: Option<u32>)
    requires Quiet(reg, cs) && 1 <= cs < |payload| && CsidInRange(t.csid) && CanTake(reg, t.csid, |payload|)
    requires Idle(t, cs) && t.hasMessageHeader && t.msgLength == |payload| && t.extTs == ext.Some?
    ensures var u := t.(partial := payload[..cs], bytesRead := cs, reassembling := true);
            Midway(Put(reg, u), u, cs, payload, cs, ext)
  {
    var u := t.(partial := payload[..cs], bytesRead := cs, reassembling := true);
    QuietFacts(reg, cs, t.csid);
    PutValid(reg, u);
    GetPut(reg, u, u.csid);
  }

  /** The first chunk. */
  lemma FirstArrives(
    r: Receiver, reg: Registry, cs: nat, csid: u32, fmt: Fmt, ts: u32, payload: bytes, typeId: byte, streamId: u32,
    tail: bytes)
    requires r.Running? && Quiet(reg, cs) && cs >= 1 && CsidInRange(csid) && |payload| <= RTMP_WIRE_MAX_MSG_LENGTH
    requires CanTake(reg, csid, |payload|) && Decodable(reg, csid, fmt, |payload|)
    ensures var len, n := |payload|, Min(|payload|, cs);
            var t := StreamAfter(reg, csid, fmt, ts, len, typeId, streamId);
            Drain(At(r, reg, FirstHeader(csid, fmt, ts, len, typeId, streamId) + payload[..n] + tail))
            == Drain(if n < len then At(r, Put(reg, t.(partial := payload[..n], bytesRead := cs, reassembling := true)), tail)
                     else Received(r, Put(reg, t), MessageOf(t, fmt, payload), tail))
  {
    hide Drain, PlanFor, Put, Get, Advance, At, Received, TotalBytes, FirstHeader, StartsWithChunk, StreamAfter,
      ValidRegistry, Quiet, StreamOk, StreamFor;
    var len, n := |payload|, Min(|payload|, cs);
    var hdr, body := FirstHeader(csid, fmt, ts, len, typeId, streamId), payload[..n];
    AdvanceFirst(reg, cs, csid, fmt, ts, len, typeId, streamId, body);
    var b := hdr + body + tail;
    FirstChunkDecodes(csid, fmt, ts, len, typeId, streamId, body, tail, b);
    ReadFirst(reg, cs, csid, fmt, ts, len, typeId, streamId, body, b);
    DrainStep(r, reg, b);
    assert b[|hdr| + n..] == tail;
    assert n == len ==> body == payload;
  }

  /**
   A receiver between messages turns a whole message on the wire back into that
   message, at any chunk size, with or without extended timestamps, and is
   between messages again.
   */
  lemma MessageArrives(
    r: Receiver, reg: Registry, cs: nat, csid: u32, fmt: Fmt, ts: u32, payload: bytes, typeId: byte, streamId: u32,
    rest: bytes)
    requires r.Running? && Quiet(reg, cs) && cs >= 1 && CsidInRange(csid) && |payload| <= RTMP_WIRE_MAX_MSG_LENGTH
    requires CanTake(reg, csid, |payload|) && Decodable(reg, csid, fmt, |payload|)
    ensures var wire := FirstHeader(csid, fmt, ts, |payload|, typeId, streamId) + ChunkBody(csid, payload, cs, ExtOf(ts));
            var t := StreamAfter(reg, csid, fmt, ts, |payload|, typeId, streamId);
            && Quiet(Put(reg, t), cs)
            && Drain(At(r, reg, wire + rest))
               == Drain(Received(r, Put(reg, t), MessageOf(t, if |payload| <= cs then fmt else 3, payload), rest))
  {
    hide Drain, Put, Get, Advance, At, Received, ContinuationHeader, TotalBytes, ChunkBody, FirstHeader, StreamAfter,
      ValidRegistry, Quiet, StreamOk, StreamFor;
    var ext, len, n := ExtOf(ts), |payload|, Min(|payload|, cs);
    var t := StreamAfter(reg, csid, fmt, ts, len, typeId, streamId);
    var hdr, body := FirstHeader(csid, fmt, ts, len, typeId, streamId), payload[..n];
    AdvanceFirst(reg, cs, csid, fmt, ts, len, typeId, streamId, body);
    QuietPut(reg, cs, t);
    if n < len {
      var tail := ContinuationHeader(csid, ext) + ChunkBody(csid, payload[n..], cs, ext) + rest;
      FirstOnWire(hdr, csid, payload, cs, ext, rest);
      FirstArrives(r, reg, cs, csid, fmt, ts, payload, typeId, streamId, tail);
      var u := t.(partial := body, bytesRead := cs, reassembling := true);
      MidwayFirst(reg, cs, t, payload, ext);
      RestArrives(r, Put(reg, u), u, cs, payload, n, ext, rest);
      PutTwice(reg, u, t);
      assert EmptiedStream(u) == t && MessageOf(u, 3, payload) == MessageOf(t, 3, payload);
    } else {
      FirstOnWire(hdr, csid, payload, cs, ext, rest);
      FirstArrives(r, reg, cs, csid, fmt, ts, payload, typeId, streamId, rest);
    }
  }

  /** The first chunk's body on the wire, and what follows it. */
  lemma FirstOnWire(hdr: bytes, csid: u32, payload: bytes, cs: nat, ext: Option<u32>, rest: bytes)
    requires cs > 0
    ensures var n := Min(|payload|, cs);
            hdr + ChunkBody(csid, payload, cs, ext) + rest
            == hdr + payload[..n]
               + if n < |payload| then ContinuationHeader(csid, ext) + ChunkBody(csid, payload[n..], cs, ext) + rest else rest
  {
    hide ChunkBody, ContinuationHeader;
    BodySplit(csid, payload, 0, cs, ext);
    var n := Min(|payload|, cs);
    assert payload[0..] == payload && payload[0..n] == payload[..n];
    if n < |payload| {
      var mid := ContinuationHeader(csid, ext) + ChunkBody(csid, payload[n..], cs, ext);
      assert payload[..n] + ContinuationHeader(csid, ext) + ChunkBody(csid, payload[n..], cs, ext) == payload[..n] + mid;
      assert hdr + (payload[..n] + mid) + rest == hdr + payload[..n] + (mid + rest);
    }
  }
}
