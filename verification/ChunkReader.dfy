/**
 The chunk reader of src/chunk/reader.rs as a function: what one call does with
 the unread bytes and the registry. `ChunkRegistry.ChunkRead` implements it.

 A call first plans (phase 1 of the source, which only peeks) and then advances
 the one stream the chunk belongs to.
 */
module ChunkReader {
  import opened Bytes
  import opened ChunkWire
  import opened ChunkState

  /** One chunk as parsed: `tsField` is the timestamp or delta, `body` its share of the payload. */
  datatype Chunk = Chunk(
    csid: u32, fmt: Fmt, tsField: u32, ext: bool, length: nat, typeId: byte, streamId: u32, body: bytes)

  datatype Message = Message(
    csid: u32, fmt: Fmt, timestamp: u32, length: nat, typeId: byte, streamId: u32, payload: bytes)

  datatype Plan = NeedMore | Reject | Accept(chunk: Chunk, wireLen: nat)

  /** What the decision depends on besides the bytes and the chunk's own stream. */
  datatype Context = Context(
    defaultChunkSize: nat, maxMsgLength: nat, maxActiveCsids: nat, maxReassemblyBytes: nat,
    total: nat, active: nat, count: nat)

  function ContextOf(reg: Registry): Context {
    Context(reg.defaultChunkSize, reg.maxMsgLength, reg.maxActiveCsids, reg.maxReassemblyBytes,
            TotalBytes(reg.streams), ActiveCount(reg.streams), |reg.streams|)
  }

  predicate UsesExtended(b: bytes, h: Basic, st: Option<ChunkStream>)
    requires h.size + MessageFieldsLen(h.fmt) <= |b|
  {
    if h.fmt <= 2 then FromBe24(b[h.size..]) >= EXTENDED_TIMESTAMP_MARKER
    else st.Some? && st.value.extTs
  }

  function HeaderSize(h: Basic, ext: bool): nat {
    h.size + MessageFieldsLen(h.fmt) + if ext then 4 else 0
  }

  /** Length of the message the chunk belongs to. */
  function EffectiveLength(b: bytes, h: Basic, st: Option<ChunkStream>): nat
    requires h.size + MessageFieldsLen(h.fmt) <= |b|
    requires h.fmt >= 2 ==> st.Some?
  {
    if h.fmt <= 1 then FromBe24(b[h.size + 3..]) else st.value.msgLength
  }

  /** Bytes of the message already read; fmt 0 and 1 restart it. */
  function AlreadyRead(fmt: Fmt, st: Option<ChunkStream>): nat {
    if fmt <= 1 || st.None? then 0 else st.value.bytesRead
  }

  function BodySize(fmt: Fmt, length: nat, st: Option<ChunkStream>, defaultChunkSize: nat): nat {
    Min(SatSub(length, AlreadyRead(fmt, st)), if st.Some? then st.value.chunkSize else defaultChunkSize)
  }

  /** Bytes that a restart gives back to the reassembly budget. */
  function Replaced(fmt: Fmt, st: Option<ChunkStream>): nat {
    if fmt <= 1 && st.Some? then |st.value.partial| else 0
  }

  predicate CanOpen(st: Option<ChunkStream>, cx: Context) {
    if st.Some? then st.value.reassembling || cx.active < cx.maxActiveCsids
    else cx.active < cx.maxActiveCsids && cx.count < MAX_CHUNK_STREAMS
  }

  function ChunkAt(b: bytes, h: Basic, ext: bool, n: nat): Chunk
    requires HeaderSize(h, ext) + n <= |b|
  {
    var mh := h.size;
    Chunk(h.csid, h.fmt,
          if ext then FromBe32(b[HeaderSize(h, false)..]) else if h.fmt <= 2 then FromBe24(b[mh..]) else 0,
          ext,
          if h.fmt <= 1 then FromBe24(b[mh + 3..]) else 0,
          if h.fmt <= 1 then b[mh + 6] else 0,
          if h.fmt == 0 then FromLe32(b[mh + 7..]) else 0,
          b[HeaderSize(h, ext)..HeaderSize(h, ext) + n])
  }

  /** The message fields can be read out of their own slice. */
  lemma FieldsInSlice(b: bytes, h: Basic, ext: bool, n: nat)
    requires HeaderSize(h, ext) + n <= |b|
    ensures var mh := b[h.size..HeaderSize(h, false)];
            && |mh| == MessageFieldsLen(h.fmt)
            && (h.fmt == 0 ==> |mh| == 11)
            && (h.fmt <= 2 ==> FromBe24(mh) == FromBe24(b[h.size..]))
            && (h.fmt <= 1 ==> FromBe24(mh[3..]) == FromBe24(b[h.size + 3..]) && mh[6] == b[h.size + 6])
            && (h.fmt == 0 ==> FromLe32(mh[7..]) == FromLe32(b[h.size + 7..]))
    ensures ext ==> FromBe32(b[HeaderSize(h, false)..HeaderSize(h, true)]) == FromBe32(b[HeaderSize(h, false)..])
  {
    hide FromBe24, FromBe32, FromLe32;
    var k := HeaderSize(h, false);
    var mh := b[h.size..k];
    if h.fmt <= 2 {
      SameOctets(b, h.size, k, 0, 3);
      FieldsAgree(mh[0..], b[h.size + 0..], 3);
      assert mh[0..] == mh;
    }
    if h.fmt <= 1 {
      SameOctets(b, h.size, k, 3, 3);
      FieldsAgree(mh[3..], b[h.size + 3..], 3);
    }
    if h.fmt == 0 {
      SameOctets(b, h.size, k, 7, 4);
      FieldsAgree(mh[7..], b[h.size + 7..], 4);
    }
    if ext {
      SameOctets(b, k, k + 4, 0, 4);
      FieldsAgree(b[k..k + 4][0..], b[k + 0..], 4);
      assert b[k..k + 4][0..] == b[k..k + 4];
    }
  }

  /** The `n` octets at offset `i` of a slice. */
  lemma SameOctets(b: bytes, from: nat, to: nat, i: nat, n: nat)
    requires from + i + n <= to <= |b|
    ensures b[from..to][i..][..n] == b[from + i..][..n]
  {
  }

  /** Phase 1, in the order of the source's checks. */
  function PlanChunk(b: bytes, h: Basic, st: Option<ChunkStream>, cx: Context): (p: Plan)
    requires DecodeBasic(b) == Some(h)
    ensures p.Accept? ==> 1 <= p.wireLen <= |b|
  {
    if |b| < HeaderSize(h, false) then NeedMore
    else if h.fmt >= 2 && st.None? then Reject
    else if h.fmt == 2 && st.value.bytesRead != 0 then Reject
    else
      var ext := UsesExtended(b, h, st);
      if |b| < HeaderSize(h, ext) then NeedMore
      else
        var length := EffectiveLength(b, h, st);
        var n := BodySize(h.fmt, length, st, cx.defaultChunkSize);
        if length > cx.maxMsgLength then Reject
        else if n > 0 && SatSub(cx.total, Replaced(h.fmt, st)) + n > cx.maxReassemblyBytes then Reject
        else if h.fmt >= 2 && !st.value.hasMessageHeader then Reject
        else if !CanOpen(st, cx) then Reject
        else if |b| < HeaderSize(h, ext) + n then NeedMore
        else Accept(ChunkAt(b, h, ext, n), HeaderSize(h, ext) + n)
  }

  /**
   A length of zero is inherited like any other: what makes a compressed header
   acceptable is that a full one came before, not that its length was positive.
   */
  lemma ZeroLengthIsInherited(b: bytes, h: Basic, s: ChunkStream, cx: Context)
    requires DecodeBasic(b) == Some(h) && h.fmt >= 2
    requires s.hasMessageHeader && s.msgLength == 0 && s.bytesRead == 0 && CanOpen(Some(s), cx)
    requires |b| >= HeaderSize(h, false) && |b| >= HeaderSize(h, UsesExtended(b, h, Some(s)))
    ensures var ext := UsesExtended(b, h, Some(s));
            PlanChunk(b, h, Some(s), cx) == Accept(ChunkAt(b, h, ext, 0), HeaderSize(h, ext))
  {
  }

  /** The header state after a chunk (sections 5.3.1.2.1 to 5.3.1.2.4). */
  function ApplyHeader(s: ChunkStream, c: Chunk): ChunkStream {
    match c.fmt
    case 0 =>
      s.(hasMessageHeader := true, timestamp := c.tsField, msgLength := c.length, msgTypeId := c.typeId,
         msgStreamId := c.streamId, extTs := c.ext, lastDelta := c.tsField)
    case 1 =>
      s.(hasMessageHeader := true, timestamp := WrapAdd32(s.timestamp, c.tsField), msgLength := c.length,
         msgTypeId := c.typeId, extTs := c.ext, lastDelta := c.tsField)
    case 2 =>
      s.(timestamp := WrapAdd32(s.timestamp, c.tsField), extTs := c.ext, lastDelta := c.tsField)
    case _ =>
      if s.bytesRead == 0 then s.(timestamp := WrapAdd32(s.timestamp, s.lastDelta)) else s
  }

  datatype Advanced = Advanced(stream: ChunkStream, message: Option<Message>)

  /** The stream with the chunk's header and bytes taken in; fmt 0 and 1 drop an unfinished message. */
  function Absorbed(s: ChunkStream, c: Chunk): ChunkStream {
    var s1 := ApplyHeader(if c.fmt <= 1 then s.(partial := [], bytesRead := 0) else s, c);
    s1.(partial := s1.partial + c.body, bytesRead := s1.bytesRead + |c.body|)
  }

  function Completed(s: ChunkStream, complete: bool, fmt: Fmt): Advanced {
    if complete then
      Advanced(s.(partial := [], bytesRead := 0, reassembling := false),
               Some(Message(s.csid, fmt, s.timestamp, s.msgLength, s.msgTypeId, s.msgStreamId, s.partial)))
    else
      Advanced(s.(reassembling := true), None)
  }

  /** Phase 3 on the chunk's own stream: the registry and the other streams play no part. */
  function Advance(s: ChunkStream, c: Chunk): Advanced {
    var s1 := Absorbed(s, c);
    Completed(s1, s1.bytesRead >= s1.msgLength, c.fmt)
  }

  datatype ReadOutcome =
    | Waiting
    | Refused
    | Consumed(chunk: Chunk, wireLen: nat, reg: Registry, message: Option<Message>)

  function StreamFor(reg: Registry, csid: u32): (s: ChunkStream)
    ensures s.csid == csid
  {
    match Get(reg, csid)
    case Some(s) => s
    case None => NewStream(csid, reg.defaultChunkSize)
  }

  function PlanFor(reg: Registry, b: bytes): (p: Plan)
    ensures p.Accept? ==> 1 <= p.wireLen <= |b|
  {
    match DecodeBasic(b)
    case None => NeedMore
    case Some(h) => PlanChunk(b, h, Get(reg, h.csid), ContextOf(reg))
  }

  function ReadChunk(reg: Registry, b: bytes): (r: ReadOutcome)
    ensures r.Consumed? ==> 1 <= r.wireLen <= |b|
  {
    match PlanFor(reg, b)
    case NeedMore => Waiting
    case Reject => Refused
    case Accept(c, n) =>
      var a := Advance(StreamFor(reg, c.csid), c);
      Consumed(c, n, Put(reg, a.stream), a.message)
  }

  /** What phase 1 guarantees to the chunk's stream. */
  ghost predicate Admissible(s: ChunkStream, c: Chunk) {
    && s.csid == c.csid
    && (c.fmt >= 2 ==> s.hasMessageHeader)
    && (c.fmt == 2 ==> s.bytesRead == 0)
    && c.length <= RTMP_WIRE_MAX_MSG_LENGTH
    && var length := if c.fmt <= 1 then c.length else s.msgLength;
       |c.body| == Min(SatSub(length, if c.fmt <= 1 then 0 else s.bytesRead), s.chunkSize)
  }

  /** An absorbed stream never holds more than the message it is inside. */
  lemma AbsorbedFits(s: ChunkStream, c: Chunk)
    requires StreamOk(s) && Admissible(s, c)
    ensures var a := Absorbed(s, c);
            && a.csid == s.csid && a.reassembling == s.reassembling
            && |c.body| == Min(SatSub(a.msgLength, a.bytesRead - |c.body|), a.chunkSize)
            && |a.partial| == (if c.fmt <= 1 then 0 else |s.partial|) + |c.body| <= a.msgLength
            && a.msgLength <= RTMP_WIRE_MAX_MSG_LENGTH
  {
  }

  lemma AcceptedIsAdmissible(reg: Registry, b: bytes)
    requires PlanFor(reg, b).Accept?
    ensures Admissible(StreamFor(reg, PlanFor(reg, b).chunk.csid), PlanFor(reg, b).chunk)
  {
  }

  /** The per-stream invariant survives every admissible chunk, and a message is exactly as long as declared. */
  lemma AdvanceOk(s: ChunkStream, c: Chunk)
    requires StreamOk(s) && Admissible(s, c)
    ensures var a := Advance(s, c);
            && StreamOk(a.stream) && a.stream.csid == s.csid && a.stream.chunkSize == s.chunkSize
            && a.stream.hasMessageHeader
            && |a.stream.partial| <= (if c.fmt <= 1 then 0 else |s.partial|) + |c.body|
            && (a.message.Some? <==> !a.stream.reassembling)
            && (a.message.Some? ==> |a.message.value.payload| == a.message.value.length)
  {
    hide WrapAdd32;
  }

  /**
   Every consumed chunk leads from a valid registry to a valid registry: exact
   accounting and all three caps hold in every reachable state.
   */
  lemma ReadKeepsValid(reg: Registry, b: bytes)
    requires ValidRegistry(reg)
    requires ReadChunk(reg, b).Consumed?
    ensures ValidRegistry(ReadChunk(reg, b).reg)
  {
    var Accept(c, n) := PlanFor(reg, b);
    var s := StreamFor(reg, c.csid);
    AcceptedIsAdmissible(reg, b);
    AdvanceOk(s, c);
    var a := Advance(s, c);
    match Find(reg.streams, c.csid)
    case Some(i) =>
      TotalUpdate(reg.streams, i, a.stream);
      PutValid(reg, a.stream);
    case None =>
      PutValid(reg, a.stream);
  }

  /** More bytes do not change the fields that are already there. */
  lemma FieldsAreStable(b: bytes, e: bytes, h: Basic, st: Option<ChunkStream>)
    requires b <= e && h.size + MessageFieldsLen(h.fmt) <= |b|
    requires h.fmt >= 2 ==> st.Some?
    ensures UsesExtended(e, h, st) == UsesExtended(b, h, st)
    ensures EffectiveLength(e, h, st) == EffectiveLength(b, h, st)
  {
    if h.fmt <= 2 {
      assert e[h.size..][..3] == b[h.size..][..3];
    }
    if h.fmt <= 1 {
      assert e[h.size + 3..][..3] == b[h.size + 3..][..3];
    }
  }

  lemma ChunkIsStable(b: bytes, e: bytes, h: Basic, ext: bool, n: nat)
    requires b <= e && HeaderSize(h, ext) + n <= |b|
    ensures ChunkAt(e, h, ext, n) == ChunkAt(b, h, ext, n)
  {
    var k := HeaderSize(h, ext);
    assert e[k..k + n] == b[k..k + n];
    if ext {
      assert e[k - 4..][..4] == b[k - 4..][..4];
    }
    if h.fmt == 0 {
      assert e[h.size + 7..][..4] == b[h.size + 7..][..4];
    }
    FieldsAreStable(b, e, h, Some(NewStream(0, 1)));
    if h.fmt <= 2 {
      assert e[h.size..][..3] == b[h.size..][..3];
    }
  }

  /** A chunk is consumed from its own bytes as it is from a buffer that goes on. */
  lemma OwnBytesSuffice(reg: Registry, b: bytes)
    requires ReadChunk(reg, b).Consumed?
    ensures ReadChunk(reg, b[..ReadChunk(reg, b).wireLen]) == ReadChunk(reg, b)
  {
    hide FromBe24, FromBe32, FromLe32, Get, TotalBytes, ActiveCount, Advance, Put, CanOpen, ChunkAt;
    var out := ReadChunk(reg, b);
    var own := b[..out.wireLen];
    var h := DecodeBasic(b).value;
    var st := Get(reg, h.csid);
    assert own <= b && DecodeBasic(own) == Some(h);
    FieldsAreStable(own, b, h, st);
    var ext := UsesExtended(b, h, st);
    ChunkIsStable(own, b, h, ext, out.wireLen - HeaderSize(h, ext));
  }

  /**
   A verdict on a buffer is final: whatever arrives later, the same chunk is
   consumed or refused in the same way.
   */
  lemma VerdictIsFinal(reg: Registry, b: bytes, more: bytes)
    requires !ReadChunk(reg, b).Waiting?
    ensures ReadChunk(reg, b + more) == ReadChunk(reg, b)
  {
    var h := DecodeBasic(b).value;
    var e := b + more;
    assert b <= e && DecodeBasic(e) == Some(h);
    var st := Get(reg, h.csid);
    if h.fmt < 2 || st.Some? {
      FieldsAreStable(b, e, h, st);
      var ext := UsesExtended(b, h, st);
      var n := BodySize(h.fmt, EffectiveLength(b, h, st), st, reg.defaultChunkSize);
      if |b| >= HeaderSize(h, ext) + n {
        ChunkIsStable(b, e, h, ext, n);
      }
    }
  }

  /** The chunk's body is the tail of the bytes it was read from. */
  lemma BodyOnTheWire(reg: Registry, b: bytes)
    requires PlanFor(reg, b).Accept?
    ensures var Accept(c, n) := PlanFor(reg, b);
            |c.body| < n && b[n - |c.body|..n] == c.body
  {
    hide FromBe24, FromBe32, FromLe32, Get, TotalBytes, ActiveCount, UsesExtended, EffectiveLength, BodySize, CanOpen;
  }
}
