/**
 End-to-end synchronisation: a publishing sender (src/client/mod.rs) that mixes
 fmt=0 commands and control messages, chunk-size announcements and
 header-compressed media, and a receiver that drains chunks and applies the
 announcements it finds.
 */
module Sync {
  import opened Bytes
  import opened Buffers
  import opened ChunkWire
  import opened ChunkState
  import opened ChunkReader
  import opened ChunkWriter
  import opened Control
  import opened MediaOut
  import opened FrameDelivery
  import opened Receivers
  import opened Arrival
  import opened Staging

  const MAX_OUTBOUND_CHUNK_SIZE: nat := 65536

  datatype Sender = Sender(chunkSize: nat, last: Tracker)

  /** `Plain` is a command (csid 3) or control message (csid 2); `Announce` asks for a chunk size. */
  datatype SendEvent =
    | Plain(csid: u32, ts: u32, typeId: byte, streamId: u32, payload: bytes)
    | Announce(requested: u32)
    | Media(compact: bool, info: MediaInfo, payload: bytes)

  /** What the application sees of a message. */
  datatype Content = Content(csid: u32, timestamp: u32, typeId: byte, streamId: u32, payload: bytes)

  function ContentOf(m: Message): Content {
    Content(m.csid, m.timestamp, m.typeId, m.streamId, m.payload)
  }

  function Contents(ms: seq<Message>): seq<Content> {
    seq(|ms|, i requires 0 <= i < |ms| => ContentOf(ms[i]))
  }

  function Clamped(requested: u32): (n: nat)
    ensures DEFAULT_CHUNK_SIZE <= n <= MAX_OUTBOUND_CHUNK_SIZE
  {
    Max(DEFAULT_CHUNK_SIZE, Min(requested, MAX_OUTBOUND_CHUNK_SIZE))
  }

  ghost predicate ValidSender(s: Sender) {
    DEFAULT_CHUNK_SIZE <= s.chunkSize <= MAX_OUTBOUND_CHUNK_SIZE
  }

  /** The bytes an event puts on the wire. */
  function WireOf(s: Sender, e: SendEvent): bytes
    requires s.chunkSize > 0
  {
    match e
    case Plain(csid, ts, typeId, streamId, payload) => MessageWire(csid, ts, typeId, streamId, payload, s.chunkSize)
    case Announce(requested) =>
      if Clamped(requested) == s.chunkSize then []
      else MessageWire(2, 0, MSG_SET_CHUNK_SIZE, 0, Be32(Clamped(requested)), s.chunkSize)
    case Media(compact, info, payload) =>
      match Choose(s.last, compact, info, |payload|)
      case Ok(h) => HeaderBytes(h) + MediaBody(info.frameType, info.timestamp, payload, s.chunkSize)
      case Err(_) => []
  }

  function NextSender(s: Sender, e: SendEvent): (s': Sender)
    ensures s.chunkSize > 0 ==> s'.chunkSize > 0
  {
    match e
    case Plain(_, _, _, _, _) => s
    case Announce(requested) => s.(chunkSize := Clamped(requested))
    case Media(compact, info, payload) =>
      match Choose(s.last, compact, info, |payload|)
      case Ok(h) => s.(last := Commit(s.last, h))
      case Err(_) => s
  }

  /** The messages an event means to send. */
  function SentBy(s: Sender, e: SendEvent): seq<Content> {
    match e
    case Plain(csid, ts, typeId, streamId, payload) => [Content(csid, ts, typeId, streamId, payload)]
    case Announce(requested) =>
      if Clamped(requested) == s.chunkSize then []
      else [Content(2, 0, MSG_SET_CHUNK_SIZE, 0, Be32(Clamped(requested)))]
    case Media(compact, info, payload) =>
      var slot := MediaChunkStream(info.frameType);
      [Content(slot.csid, info.timestamp, slot.typeId, info.msgStreamId, payload)]
  }

  function WireOfAll(s: Sender, evs: seq<SendEvent>): bytes
    requires s.chunkSize > 0
    decreases |evs|
  {
    if evs == [] then [] else WireOf(s, evs[0]) + WireOfAll(NextSender(s, evs[0]), evs[1..])
  }

  function SentByAll(s: Sender, evs: seq<SendEvent>): seq<Content>
    decreases |evs|
  {
    if evs == [] then [] else SentBy(s, evs[0]) + SentByAll(NextSender(s, evs[0]), evs[1..])
  }

  /** Within the receiver's caps and the 24-bit length field. */
  ghost predicate Fits(reg: Registry, len: nat) {
    len <= reg.maxMsgLength && len <= reg.maxReassemblyBytes && len <= RTMP_WIRE_MAX_MSG_LENGTH
  }

  ghost predicate Sendable(reg: Registry, e: SendEvent) {
    match e
    case Plain(csid, _, typeId, _, payload) => 2 <= csid <= 3 && typeId != MSG_SET_CHUNK_SIZE && Fits(reg, |payload|)
    case Announce(_) => Fits(reg, 4)
    case Media(_, _, payload) => Fits(reg, |payload|)
  }

  /** All that an event's message holds for a receiver; an announcement shows nothing. */
  function HeldBy(listening: bool, e: SendEvent): Handed {
    match e
    case Plain(_, ts, typeId, _, payload) => Presented(listening, typeId, ts, payload)
    case Announce(_) => Handed([Silent], None)
    case Media(_, info, payload) =>
      Presented(listening, MediaChunkStream(info.frameType).typeId, info.timestamp, payload)
  }

  /** Nothing in an event's message ends the connection: no malformed part of an aggregate, no malformed container. */
  predicate Shows(listening: bool, e: SendEvent) {
    HeldBy(listening, e).error == None
  }

  /** What is handled of messages with these contents when none is cut short. */
  function UnitsOf(listening: bool, cs: seq<Content>): seq<seq<Unit>> {
    seq(|cs|, i requires 0 <= i < |cs| => Presented(listening, cs[i].typeId, cs[i].timestamp, cs[i].payload).units)
  }

  /** A receiver that has handled these messages completely as well. */
  function Gained(r: Receiver, ms: seq<Message>): Receiver
    requires r.Running?
  {
    Running(r.reg, r.unread, r.delivered + ms, r.handled + UnitsOf(r.listening, Contents(ms)), r.listening)
  }

  function Present(reg: Registry, csid: u32): nat {
    if Get(reg, csid).Some? then 1 else 0
  }

  /** The receiver knows, for each media stream, the header the sender compresses against. */
  ghost predicate Knows(reg: Registry, csid: u32, last: Option<MediaOutHeader>) {
    last.Some? ==>
      && Get(reg, csid).Some?
      && var t, h := Get(reg, csid).value, last.value;
         && t.hasMessageHeader && t.timestamp == h.timestamp && t.msgLength == h.msgLength
         && t.msgTypeId == h.msgTypeId && t.msgStreamId == h.msgStreamId
  }

  ghost predicate InSync(s: Sender, reg: Registry) {
    && ValidSender(s)
    && Quiet(reg, s.chunkSize)
    && reg.maxActiveCsids >= 1
    && |reg.streams| <= Present(reg, 2) + Present(reg, 3) + Present(reg, 4) + Present(reg, 5) + Present(reg, 6)
    && Knows(reg, 4, s.last[0]) && Knows(reg, 5, s.last[1]) && Knows(reg, 6, s.last[2])
  }

  ghost predicate SameLimits(a: Registry, b: Registry) {
    a.maxMsgLength == b.maxMsgLength && a.maxReassemblyBytes == b.maxReassemblyBytes && a.maxActiveCsids == b.maxActiveCsids
  }

  /** Storing a stream of the session keeps the two sides in step, given the tracker that goes with it. */
  lemma PutInSync(s: Sender, reg: Registry, t: ChunkStream, last: Tracker)
    requires InSync(s, reg) && 2 <= t.csid <= 6 && Quiet(Put(reg, t), s.chunkSize)
    requires forall i :: 0 <= i < 3 ==> if t.csid == 4 + i then Knows(Put(reg, t), 4 + i, last[i]) else last[i] == s.last[i]
    ensures InSync(s.(last := last), Put(reg, t)) && SameLimits(Put(reg, t), reg)
  {
    hide Get, Quiet, Find;
    GetPut(reg, t, 2);
    GetPut(reg, t, 3);
    GetPut(reg, t, 4);
    GetPut(reg, t, 5);
    GetPut(reg, t, 6);
    PutLength(reg, t);
  }

  lemma PutLength(reg: Registry, t: ChunkStream)
    ensures |Put(reg, t).streams| == |reg.streams| + 1 - Present(reg, t.csid)
  {
  }

  lemma RoomForStream(s: Sender, reg: Registry, csid: u32, len: nat)
    requires InSync(s, reg) && Fits(reg, len)
    ensures CanTake(reg, csid, len)
  {
  }

  /** Between messages an abort changes nothing. */
  lemma AbortWhenQuiet(reg: Registry, cs: nat, csid: u32)
    requires Quiet(reg, cs)
    ensures AbortStream(reg, csid) == reg
  {
    match Find(reg.streams, csid)
    case Some(i) =>
      assert StreamOk(reg.streams[i]);
      assert EmptiedStream(reg.streams[i]) == reg.streams[i];
      assert reg.streams[i := reg.streams[i]] == reg.streams;
    case None =>
  }

  lemma ResizeInSync(s: Sender, reg: Registry, n: nat)
    requires InSync(s, reg) && DEFAULT_CHUNK_SIZE <= n <= MAX_OUTBOUND_CHUNK_SIZE
    ensures InSync(s.(chunkSize := n), SetAllChunkSize(reg, n)) && SameLimits(SetAllChunkSize(reg, n), reg)
  {
    SetAllChunkSizeKeepsValid(reg, n);
    assert Quiet(SetAllChunkSize(reg, n), n);
    GetSetAllChunkSize(reg, n, 2);
    GetSetAllChunkSize(reg, n, 3);
    GetSetAllChunkSize(reg, n, 4);
    GetSetAllChunkSize(reg, n, 5);
    GetSetAllChunkSize(reg, n, 6);
    hide Quiet, Get, Find;
  }

  /** A compressed header can be decoded, and means the message it was chosen for. */
  lemma ChosenHeaderMeans(s: Sender, reg: Registry, compact: bool, info: MediaInfo, len: nat)
    requires InSync(s, reg) && Fits(reg, len)
    ensures var h := Choose(s.last, compact, info, len).value;
            var t := StreamAfter(reg, h.csid, h.fmt, h.tsField, len, h.current.msgTypeId, info.msgStreamId);
            && Decodable(reg, h.csid, h.fmt, len)
            && t.csid == h.csid && t.hasMessageHeader && t.timestamp == info.timestamp && t.msgLength == len
            && t.msgTypeId == h.current.msgTypeId && t.msgStreamId == info.msgStreamId
  {
    hide Get, Quiet;
  }

  /** What is said of the wire of some messages, followed by more. */
  ghost predicate Arrives(r: Receiver, reg: Registry, wire: bytes, rest: bytes, reg': Registry, ms: seq<Message>, shows: bool)
    requires r.Running?
  {
    var r' := Drain(At(r, reg, wire + rest));
    if shows then r' == Drain(At(Gained(r, ms), reg', rest))
    else r'.Failed? && r'.handled == r.handled + UnitsOf(r.listening, Contents(ms))
  }

  /** A complete message of a session is handled: if nothing is wrong with it the session goes on. */
  lemma MessageIsHandled(r: Receiver, reg: Registry, wire: bytes, rest: bytes, got: Registry, m: Message, reg': Registry)
    requires r.Running? && Handle(got, m) == Ok(reg')
    requires Drain(At(r, reg, wire + rest)) == Drain(Received(r, got, m, rest))
    ensures Arrives(r, reg, wire, rest, reg', [m], HandedOf(r.listening, m, None).error == None)
  {
    hide Handle, Presented, Drain;
    assert UnitsOf(r.listening, Contents([m])) == [HandedOf(r.listening, m, None).units];
    var after := Received(r, got, m, rest);
    if after.Failed? {
      FailedStays(after, []);
    }
  }

  /** One event of the sender, as the receiver experiences it: it is received, or it ends the connection. */
  lemma EventArrives(s: Sender, reg: Registry, e: SendEvent, rest: bytes, r: Receiver)
    returns (reg': Registry, ms: seq<Message>)
    requires InSync(s, reg) && Sendable(reg, e) && r.Running?
    ensures Arrives(r, reg, WireOf(s, e), rest, reg', ms, Shows(r.listening, e))
    ensures InSync(NextSender(s, e), reg') && SameLimits(reg', reg)
    ensures Contents(ms) == SentBy(s, e)
  {
    hide Arrives;
    match e
    case Plain(csid, ts, typeId, streamId, payload) =>
      reg', ms := PlainArrives(s, reg, e, rest, r);
    case Announce(requested) =>
      reg', ms := AnnounceArrives(s, reg, e, rest, r);
    case Media(compact, info, payload) =>
      reg', ms := MediaArrives(s, reg, e, rest, r);
  }

  lemma PlainArrives(s: Sender, reg: Registry, e: SendEvent, rest: bytes, r: Receiver)
    returns (reg': Registry, ms: seq<Message>)
    requires InSync(s, reg) && Sendable(reg, e) && e.Plain? && r.Running?
    ensures Arrives(r, reg, WireOf(s, e), rest, reg', ms, Shows(r.listening, e))
    ensures InSync(s, reg') && SameLimits(reg', reg)
    ensures Contents(ms) == SentBy(s, e)
  {
    hide Drain, Get, Put, Quiet, FirstHeader, ChunkBody, Presented, Arrives, Received;
    RoomForStream(s, reg, e.csid, |e.payload|);
    MessageArrives(r, reg, s.chunkSize, e.csid, 0, e.ts, e.payload, e.typeId, e.streamId, rest);
    var t := StreamAfter(reg, e.csid, 0, e.ts, |e.payload|, e.typeId, e.streamId);
    reg' := Put(reg, t);
    var m := MessageOf(t, if |e.payload| <= s.chunkSize then 0 else 3, e.payload);
    ms := [m];
    PutInSync(s, reg, t, s.last);
    if ReadAbortMessage(e.payload).Ok? {
      AbortWhenQuiet(reg', s.chunkSize, ReadAbortMessage(e.payload).value);
    }
    assert s.(last := s.last) == s;
    hide StreamAfter, AbortStream;
    assert Handle(reg', m) == Ok(reg');
    MessageIsHandled(r, reg, WireOf(s, e), rest, reg', m, reg');
  }

  lemma AnnounceArrives(s: Sender, reg: Registry, e: SendEvent, rest: bytes, r: Receiver)
    returns (reg': Registry, ms: seq<Message>)
    requires InSync(s, reg) && Sendable(reg, e) && e.Announce? && r.Running?
    ensures Arrives(r, reg, WireOf(s, e), rest, reg', ms, Shows(r.listening, e))
    ensures InSync(NextSender(s, e), reg') && SameLimits(reg', reg)
    ensures Contents(ms) == SentBy(s, e)
  {
    hide Drain, Get, Put, Quiet, FirstHeader, ChunkBody;
    var n := Clamped(e.requested);
    if n == s.chunkSize {
      reg', ms := reg, [];
      assert [] + rest == rest && Gained(r, []) == r;
      assert NextSender(s, e) == s;
    } else {
      var payload := Be32(n);
      RoomForStream(s, reg, 2, 4);
      MessageArrives(r, reg, s.chunkSize, 2, 0, 0, payload, MSG_SET_CHUNK_SIZE, 0, rest);
      var t := StreamAfter(reg, 2, 0, 0, 4, MSG_SET_CHUNK_SIZE, 0);
      PutInSync(s, reg, t, s.last);
      assert s.(last := s.last) == s;
      ResizeInSync(s, Put(reg, t), n);
      SetChunkSizeRoundTrip(n);
      reg' := SetAllChunkSize(Put(reg, t), n);
      ms := [MessageOf(t, 0, payload)];
      CountedFirst(r.listening, ms[0]);
      hide HandedOf;
      MessageIsHandled(r, reg, WireOf(s, e), rest, Put(reg, t), ms[0], reg');
    }
  }

  /** The receiver's context after a media message is the one the sender compresses the next one against. */
  lemma MediaInSync(s: Sender, reg: Registry, e: SendEvent)
    requires InSync(s, reg) && Sendable(reg, e) && e.Media?
    ensures var h := Choose(s.last, e.compact, e.info, |e.payload|).value;
            var t := StreamAfter(reg, h.csid, h.fmt, h.tsField, |e.payload|, h.current.msgTypeId, e.info.msgStreamId);
            && (Quiet(Put(reg, t), s.chunkSize) ==> InSync(NextSender(s, e), Put(reg, t)))
            && SameLimits(Put(reg, t), reg)
  {
    hide Get, Put, Quiet, StreamAfter, Find;
    var len := |e.payload|;
    var h := Choose(s.last, e.compact, e.info, len).value;
    ChosenHeaderMeans(s, reg, e.compact, e.info, len);
    var t := StreamAfter(reg, h.csid, h.fmt, h.tsField, len, h.current.msgTypeId, e.info.msgStreamId);
    GetPut(reg, t, h.csid);
    if Quiet(Put(reg, t), s.chunkSize) {
      PutInSync(s, reg, t, Commit(s.last, h));
    }
    PutSameLimits(reg, t);
  }

  lemma PutSameLimits(reg: Registry, t: ChunkStream)
    ensures SameLimits(Put(reg, t), reg)
  {
  }

  lemma MediaArrives(s: Sender, reg: Registry, e: SendEvent, rest: bytes, r: Receiver)
    returns (reg': Registry, ms: seq<Message>)
    requires InSync(s, reg) && Sendable(reg, e) && e.Media? && r.Running?
    ensures Arrives(r, reg, WireOf(s, e), rest, reg', ms, Shows(r.listening, e))
    ensures InSync(NextSender(s, e), reg') && SameLimits(reg', reg)
    ensures Contents(ms) == SentBy(s, e)
  {
    hide Drain, Get, Put, Quiet, FirstHeader, ChunkBody, StreamAfter, Presented, Arrives, Received, Knows, SameLimits, Find;
    var len := |e.payload|;
    var h := Choose(s.last, e.compact, e.info, len).value;
    RoomForStream(s, reg, h.csid, len);
    BodyFitsEveryHeader(s.last, e.compact, e.info, len);
    ChosenHeaderMeans(s, reg, e.compact, e.info, len);
    MessageArrives(r, reg, s.chunkSize, h.csid, h.fmt, h.tsField, e.payload, h.current.msgTypeId, e.info.msgStreamId, rest);
    var t := StreamAfter(reg, h.csid, h.fmt, h.tsField, len, h.current.msgTypeId, e.info.msgStreamId);
    reg' := Put(reg, t);
    var m := MessageOf(t, if len <= s.chunkSize then h.fmt else 3, e.payload);
    ms := [m];
    MediaInSync(s, reg, e);
    hide InSync;
    assert Handle(reg', m) == Ok(reg');
    MessageIsHandled(r, reg, WireOf(s, e), rest, reg', m, reg');
  }

  /** Every event is one that shows. */
  predicate AllShow(listening: bool, evs: seq<SendEvent>) {
    forall i :: 0 <= i < |evs| ==> Shows(listening, evs[i])
  }

  /**
   A whole run: if every event shows, exactly the messages sent are received and
   nothing is left over; otherwise the connection ends. What is handled is in
   either case what the messages hold, as far as it goes.
   */
  lemma {:induction false} RunArrives(s: Sender, reg: Registry, evs: seq<SendEvent>, r: Receiver)
    returns (reg': Registry, ms: seq<Message>)
    requires InSync(s, reg) && r.Running? && forall i :: 0 <= i < |evs| ==> Sendable(reg, evs[i])
    ensures Contents(ms) == SentByAll(s, evs)
    ensures var r' := Drain(At(r, reg, WireOfAll(s, evs)));
            && (if AllShow(r.listening, evs) then r' == At(Gained(r, ms), reg', []) else r'.Failed?)
            && r'.handled <= r.handled + UnitsOf(r.listening, SentByAll(s, evs))
    decreases |evs|
  {
    hide InSync, WireOf, SentBy, NextSender, Drain, Contents, Shows, UnitsOf;
    if evs == [] {
      reg', ms := reg, [];
      NothingToRead(r, reg);
      GainsNothing(r);
      ContentsConcat([], []);
    } else {
      SenderSize(s, reg);
      var s', more := NextSender(s, evs[0]), evs[1..];
      var reg1, ms1 := EventArrives(s, reg, evs[0], WireOfAll(s', more), r);
      var ms2;
      reg', ms2 := RunArrives(s', reg1, more, Gained(r, ms1));
      ms := ms1 + ms2;
      ContentsConcat(ms1, ms2);
      UnitsConcat(r.listening, SentBy(s, evs[0]), SentByAll(s', more));
      GainsBoth(r, ms1, ms2);
      assert AllShow(r.listening, evs) <==> Shows(r.listening, evs[0]) && AllShow(r.listening, more) by {
        assert evs == [evs[0]] + more;
      }
    }
  }

  lemma GainsNothing(r: Receiver)
    requires r.Running?
    ensures Gained(r, []) == r
  {
  }

  lemma GainsBoth(r: Receiver, a: seq<Message>, b: seq<Message>)
    requires r.Running?
    ensures Gained(Gained(r, a), b) == Gained(r, a + b)
  {
    ContentsConcat(a, b);
    UnitsConcat(r.listening, Contents(a), Contents(b));
    assert (r.delivered + a) + b == r.delivered + (a + b);
    var us, vs := UnitsOf(r.listening, Contents(a)), UnitsOf(r.listening, Contents(b));
    assert (r.handled + us) + vs == r.handled + (us + vs);
  }

  lemma UnitsConcat(listening: bool, a: seq<Content>, b: seq<Content>)
    ensures UnitsOf(listening, a + b) == UnitsOf(listening, a) + UnitsOf(listening, b)
  {
    hide Presented;
  }

  lemma NothingToRead(r: Receiver, reg: Registry)
    requires r.Running?
    ensures Drain(At(r, reg, [])) == At(r, reg, [])
  {
  }

  lemma ContentsConcat(a: seq<Message>, b: seq<Message>)
    ensures Contents(a + b) == Contents(a) + Contents(b) && (a == [] ==> Contents(a) == [])
  {
  }

  lemma SenderSize(s: Sender, reg: Registry)
    requires InSync(s, reg)
    ensures s.chunkSize > 0
  {
  }

  /** A fresh session starts in step. */
  lemma StartsInSync(maxMsg: nat, maxActive: nat, maxBytes: nat)
    requires maxActive >= 1
    ensures InSync(START,
                   EmptyRegistry(DEFAULT_CHUNK_SIZE, maxMsg, maxActive, maxBytes))
  {
  }

  const START: Sender := Sender(DEFAULT_CHUNK_SIZE, [None, None, None])

  /** A receiver that has not seen anything yet. */
  function Fresh(maxMsg: nat, maxActive: nat, maxBytes: nat, listening: bool): Receiver {
    Receiving(EmptyRegistry(DEFAULT_CHUNK_SIZE, maxMsg, maxActive, maxBytes), [], listening)
  }

  /** The receiver has everything that was sent and has handled all of it, and no byte of it is left over. */
  predicate Recovered(r: Receiver, listening: bool, evs: seq<SendEvent>) {
    && r.Running? && r.unread == []
    && Contents(r.delivered) == SentByAll(START, evs)
    && r.handled == UnitsOf(listening, SentByAll(START, evs))
  }

  /**
   For every run of the sender, the receiver recovers exactly the sequence of
   messages sent: chunk stream, timestamp, type, stream id and payload. Nothing
   is left over and nothing is refused, if and only if no message sent is itself
   malformed for the receiver.
   */
  lemma ReceiverRecoversEverything(
    evs: seq<SendEvent>, r: Receiver, listening: bool, maxMsg: nat, maxActive: nat, maxBytes: nat)
    requires r == Fresh(maxMsg, maxActive, maxBytes, listening) && maxActive >= 1
    requires forall i :: 0 <= i < |evs| ==> Sendable(r.reg, evs[i])
    ensures var r' := Drain(Feed(r, WireOfAll(START, evs)));
            && (Recovered(r', listening, evs) <==> AllShow(listening, evs))
            && r'.handled <= UnitsOf(listening, SentByAll(START, evs))
  {
    hide InSync, Drain, WireOfAll, SentByAll, Contents, Sendable, Shows, UnitsOf;
    StartsInSync(maxMsg, maxActive, maxBytes);
    var reg', ms := RunArrives(START, r.reg, evs, r);
    var wire := WireOfAll(START, evs);
    assert [] + wire == wire && [] + ms == ms;
    var us := UnitsOf(listening, SentByAll(START, evs));
    assert [] + us == us;
  }

  /**
   The same however the wire is fragmented into reads and however the receiver
   polls, if and only if moreover no read overfills its staging buffer and no
   poll handles a message with fewer units left than it holds.
   */
  lemma RecoveredFromAnyFragmentation(
    evs: seq<SendEvent>, arrivals: seq<Event>, r: Receiver, listening: bool, maxMsg: nat, maxActive: nat, maxBytes: nat)
    requires r == Fresh(maxMsg, maxActive, maxBytes, listening) && maxActive >= 1
    requires forall i :: 0 <= i < |evs| ==> Sendable(r.reg, evs[i])
    requires Arrived(arrivals) == WireOfAll(START, evs)
    ensures Recovered(Drain(Run(r, arrivals)), listening, evs)
       <==> AllShow(listening, evs) && !Overruns(r, arrivals) && !Truncates(r, arrivals)
  {
    hide Drain, Run, Overruns, Truncates, WireOfAll, SentByAll, Sendable, Shows, Contents, Feed;
    FragmentationIndependence(r, arrivals);
    ReceiverRecoversEverything(evs, r, listening, maxMsg, maxActive, maxBytes);
    if Overruns(r, arrivals) {
      OverrunFails(r, arrivals);
    }
    if Truncates(r, arrivals) {
      var k := TruncationMarks(r, arrivals);
    }
  }

  /** Every event's message counts at most once against a poll's budget. */
  predicate CountOnce(listening: bool, evs: seq<SendEvent>) {
    forall i :: 0 <= i < |evs| ==> |HeldBy(listening, evs[i]).units| <= 1
  }

  lemma EventUnits(listening: bool, s: Sender, e: SendEvent)
    ensures var us := UnitsOf(listening, SentBy(s, e)); us == [] || us == [HeldBy(listening, e).units]
  {
    hide Unpacked, MediaUnits;
  }

  lemma UnitsOfNothing(listening: bool)
    ensures UnitsOf(listening, []) == []
  {
  }

  lemma {:induction false} OneUnitEach(listening: bool, s: Sender, evs: seq<SendEvent>)
    requires CountOnce(listening, evs)
    ensures forall us :: us in UnitsOf(listening, SentByAll(s, evs)) ==> |us| <= 1
    decreases |evs|
  {
    hide Presented, UnitsOf, HeldBy, SentBy;
    if evs == [] {
      UnitsOfNothing(listening);
    } else {
      var s' := NextSender(s, evs[0]);
      EventUnits(listening, s, evs[0]);
      OneUnitEach(listening, s', evs[1..]);
      UnitsConcat(listening, SentBy(s, evs[0]), SentByAll(s', evs[1..]));
    }
  }

  /** And so always, if it is polled so as to keep up: no matter what is sent and where the wire is cut. */
  lemma RecoveredWhenPaced(
    evs: seq<SendEvent>, arrivals: seq<Event>, r: Receiver, listening: bool, maxMsg: nat, maxActive: nat, maxBytes: nat)
    requires r == Fresh(maxMsg, maxActive, maxBytes, listening) && maxActive >= 1
    requires forall i :: 0 <= i < |evs| ==> Sendable(r.reg, evs[i])
    requires Arrived(arrivals) == WireOfAll(START, evs)
    requires Paced(arrivals, 0, 0, Short(r.reg), Most(r.reg))
    requires Ample(arrivals, 0, Most(r.reg)) || CountOnce(listening, evs)
    ensures Recovered(Drain(Run(r, arrivals)), listening, evs) <==> AllShow(listening, evs)
  {
    hide Drain, Run, Overruns, Truncates, WireOfAll, SentByAll, Sendable, Paced, Ample, CountOnce, UnitsOf, Feed;
    StartsEmpty(r, listening, maxMsg, maxActive, maxBytes);
    PacedNeverOverruns(r, arrivals, 0, 0);
    if Ample(arrivals, 0, Most(r.reg)) {
      AmpleNeverTruncates(r, arrivals, 0, 0);
    } else {
      ReceiverRecoversEverything(evs, r, listening, maxMsg, maxActive, maxBytes);
      OneUnitEach(listening, START, evs);
      SinglesAreNeverCut(r, arrivals);
    }
    RecoveredFromAnyFragmentation(evs, arrivals, r, listening, maxMsg, maxActive, maxBytes);
  }

  lemma StartsEmpty(r: Receiver, listening: bool, maxMsg: nat, maxActive: nat, maxBytes: nat)
    requires r == Fresh(maxMsg, maxActive, maxBytes, listening)
    ensures AtMost(r, 0, 0)
  {
  }

  /** In particular if it drains after each read of up to 4 MiB, with the default message length. */
  lemma RecoveredWhenDrained(
    evs: seq<SendEvent>, pieces: seq<bytes>, budget: nat, r: Receiver, listening: bool, maxMsg: nat, maxActive: nat,
    maxBytes: nat)
    requires r == Fresh(maxMsg, maxActive, maxBytes, listening) && maxActive >= 1
    requires maxMsg <= DEFAULT_MAX_MSG_LENGTH && MAX_READ + Most(r.reg) <= budget
    requires forall i :: 0 <= i < |evs| ==> Sendable(r.reg, evs[i])
    requires forall i :: 0 <= i < |pieces| ==> |pieces[i]| <= MAX_READ
    requires Joined(pieces) == WireOfAll(START, evs)
    ensures Recovered(Drain(Run(r, DrainEach(pieces, budget))), listening, evs) <==> AllShow(listening, evs)
  {
    hide Drain, Run, WireOfAll, SentByAll, Sendable, Paced, Ample, DrainEach, Joined, Arrived, CountOnce;
    DrainEachIsPaced(pieces, budget, 0, 0, Short(r.reg), Most(r.reg));
    DrainEachArrives(pieces, budget);
    RecoveredWhenPaced(evs, DrainEach(pieces, budget), r, listening, maxMsg, maxActive, maxBytes);
  }

  /** `queue_publish_chunk_size`: the announcement goes out at the old size, everything after it at the new one. */
  method QueuePublishChunkSize(out: Buffer, requested: u32, outChunkSize: nat) returns (r: Result<()>, newSize: nat)
    requires out.Valid() && outChunkSize > 0
    modifies out
    ensures out.Valid() && out.Limit() == old(out.Limit())
    ensures var s := Sender(outChunkSize, [None, None, None]);
            if old(out.HasRoom(|WireOf(s, Announce(requested))|)) || Clamped(requested) == outChunkSize then
              && r == Ok(()) && newSize == NextSender(s, Announce(requested)).chunkSize
              && out.Contents() == old(out.Contents()) + WireOf(s, Announce(requested))
            else r == Err(Internal) && newSize == outChunkSize && out.Contents() == old(out.Contents())
  {
    var n := Clamped(requested);
    if n == outChunkSize {
      assert out.Contents() + [] == out.Contents();
      return Ok(()), outChunkSize;
    }
    var payload := Be32(n);
    assert payload[..4] == payload;
    r := ChunkWrite(out, OutMessage(2, 0, 0, 4, MSG_SET_CHUNK_SIZE, 0), payload, 4, outChunkSize);
    newSize := if r.Ok? then n else outChunkSize;
  }
}
