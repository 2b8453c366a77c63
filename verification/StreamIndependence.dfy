/**
 Chunk streams that share a connection are coupled by nothing but the caps: as
 long as every chunk is accepted, each stream delivers what it would deliver
 alone.
 */
module StreamIndependence {
  import opened Bytes
  import opened ChunkWire
  import opened ChunkState
  import opened ChunkReader
  import opened Control
  import opened Receivers

  /** A registry that knows one stream only. */
  function Alone(reg: Registry, csid: u32): Registry {
    reg.(streams := match Get(reg, csid) case Some(s) => [s] case None => [])
  }

  type WireEvent = Logged<bytes>

  predicate Accepts(reg: Registry, e: WireEvent) {
    e.Took? ==> ReadChunk(reg, e.chunk).Consumed? && ReadChunk(reg, e.chunk).wireLen == |e.chunk|
  }

  function Next(reg: Registry, e: WireEvent): Registry
    requires Accepts(reg, e)
  {
    match e
    case Took(w) => ReadChunk(reg, w).reg
    case Aborted(csid) => AbortStream(reg, csid)
    case Resized(n) => SetAllChunkSize(reg, n)
  }

  function Emits(reg: Registry, e: WireEvent): seq<Message>
    requires Accepts(reg, e)
  {
    if e.Took? && ReadChunk(reg, e.chunk).message.Some? then [ReadChunk(reg, e.chunk).message.value] else []
  }

  predicate AcceptsAll(reg: Registry, evs: seq<WireEvent>)
    decreases |evs|
  {
    evs != [] ==> Accepts(reg, evs[0]) && AcceptsAll(Next(reg, evs[0]), evs[1..])
  }

  function Messages(reg: Registry, evs: seq<WireEvent>): seq<Message>
    requires AcceptsAll(reg, evs)
    decreases |evs|
  {
    if evs == [] then [] else Emits(reg, evs[0]) + Messages(Next(reg, evs[0]), evs[1..])
  }

  /** Whether an event can matter to a stream, judged by the wire bytes alone. */
  predicate Concerns(e: WireEvent, csid: u32) {
    match e
    case Took(w) => DecodeBasic(w).Some? && DecodeBasic(w).value.csid == csid
    case Aborted(a) => a == csid
    case Resized(_) => true
  }

  function Only(evs: seq<WireEvent>, csid: u32): seq<WireEvent> {
    if evs == [] then []
    else (if Concerns(evs[0], csid) then [evs[0]] else []) + Only(evs[1..], csid)
  }

  function MessagesOn(ms: seq<Message>, csid: u32): seq<Message> {
    if ms == [] then [] else (if ms[0].csid == csid then [ms[0]] else []) + MessagesOn(ms[1..], csid)
  }

  lemma GetAlone(reg: Registry, csid: u32)
    ensures Get(Alone(reg, csid), csid) == Get(reg, csid)
    ensures TotalBytes(Alone(reg, csid).streams) <= TotalBytes(reg.streams)
    ensures ActiveCount(Alone(reg, csid).streams) <= ActiveCount(reg.streams)
    ensures |Alone(reg, csid).streams| <= |reg.streams|
    ensures match Get(reg, csid) {
              case Some(s) => |s.partial| <= TotalBytes(reg.streams) && TotalBytes(Alone(reg, csid).streams) == |s.partial|
              case None => true
            }
  {
    match Find(reg.streams, csid)
    case Some(i) =>
      var s := reg.streams[i];
      TotalUpdate(reg.streams, i, s);
      ActiveUpdate(reg.streams, i, s);
      SumsAppend([], s);
      assert [] + [s] == [s];
      assert Alone(reg, csid).streams == [s];
    case None =>
  }

  /** A lone stream behaves like a registry entry under every operation. */
  lemma AlonePut(reg: Registry, s: ChunkStream, csid: u32)
    ensures Alone(Put(reg, s), csid) == if s.csid == csid then Put(Alone(reg, csid), s) else Alone(reg, csid)
  {
    GetPut(reg, s, csid);
    if s.csid == csid {
      var alone := Alone(reg, csid);
      match Get(reg, csid)
      case Some(t) =>
        assert Find([t], csid) == Some(0);
        assert [t][0 := s] == [s];
      case None =>
        assert [] + [s] == [s];
    }
  }

  lemma AloneAbort(reg: Registry, a: u32, csid: u32)
    ensures Alone(AbortStream(reg, a), csid) == if a == csid then AbortStream(Alone(reg, csid), a) else Alone(reg, csid)
  {
    hide Find, Put, Get;
    GetAlone(reg, csid);
    if Get(reg, a).Some? {
      AlonePut(reg, EmptiedStream(Get(reg, a).value), csid);
    }
  }

  lemma AloneResize(reg: Registry, n: nat, csid: u32)
    ensures Alone(SetAllChunkSize(reg, n), csid) == SetAllChunkSize(Alone(reg, csid), n)
  {
    if DEFAULT_CHUNK_SIZE <= n <= MAX_PEER_CHUNK_SIZE {
      GetSetAllChunkSize(reg, n, csid);
    }
  }

  /** The load of the other streams can only turn an acceptance into a refusal by a cap. */
  predicate CapHit(reg: Registry, c: Chunk) {
    var st, cx := Get(reg, c.csid), ContextOf(reg);
    || (c.body != [] && SatSub(cx.total, Replaced(c.fmt, st)) + |c.body| > cx.maxReassemblyBytes)
    || !CanOpen(st, cx)
  }

  /** An accepted chunk is accepted, identically, by its stream alone. */
  lemma PlanAlone(reg: Registry, b: bytes)
    requires PlanFor(reg, b).Accept?
    ensures PlanFor(Alone(reg, PlanFor(reg, b).chunk.csid), b) == PlanFor(reg, b)
  {
    GetAlone(reg, PlanFor(reg, b).chunk.csid);
  }

  /** Conversely, what a stream alone accepts the connection accepts unless a cap is hit. */
  lemma CapsAreTheOnlyCoupling(reg: Registry, b: bytes, csid: u32)
    requires PlanFor(Alone(reg, csid), b).Accept? && PlanFor(Alone(reg, csid), b).chunk.csid == csid
    ensures PlanFor(reg, b) == if CapHit(reg, PlanFor(Alone(reg, csid), b).chunk) then Reject
                               else PlanFor(Alone(reg, csid), b)
  {
    GetAlone(reg, csid);
  }

  lemma AcceptedCsid(reg: Registry, b: bytes)
    requires ReadChunk(reg, b).Consumed?
    ensures DecodeBasic(b).Some? && DecodeBasic(b).value.csid == ReadChunk(reg, b).chunk.csid
    ensures ReadChunk(reg, b).message.Some? ==> ReadChunk(reg, b).message.value.csid == ReadChunk(reg, b).chunk.csid
    ensures ReadChunk(reg, b).reg
         == Put(reg, Advance(StreamFor(reg, ReadChunk(reg, b).chunk.csid), ReadChunk(reg, b).chunk).stream)
    ensures Advance(StreamFor(reg, ReadChunk(reg, b).chunk.csid), ReadChunk(reg, b).chunk).stream.csid
         == ReadChunk(reg, b).chunk.csid
  {
  }

  lemma ReadAlone(reg: Registry, b: bytes, csid: u32)
    requires ReadChunk(reg, b).Consumed?
    ensures var out := ReadChunk(reg, b);
            if out.chunk.csid == csid then
              var alone := ReadChunk(Alone(reg, csid), b);
              && alone.Consumed? && alone.wireLen == out.wireLen && alone.message == out.message
              && alone.reg == Alone(out.reg, csid)
            else Alone(out.reg, csid) == Alone(reg, csid)
  {
    AcceptedCsid(reg, b);
    var out := ReadChunk(reg, b);
    AlonePut(reg, Advance(StreamFor(reg, out.chunk.csid), out.chunk).stream, csid);
    if out.chunk.csid == csid {
      PlanAlone(reg, b);
      GetAlone(reg, csid);
    }
  }

  lemma NextAlone(reg: Registry, e: WireEvent, csid: u32)
    requires Accepts(reg, e)
    ensures if Concerns(e, csid) then
              && Accepts(Alone(reg, csid), e)
              && Next(Alone(reg, csid), e) == Alone(Next(reg, e), csid)
              && MessagesOn(Emits(reg, e), csid) == Emits(Alone(reg, csid), e)
            else Alone(Next(reg, e), csid) == Alone(reg, csid) && MessagesOn(Emits(reg, e), csid) == []
  {
    hide ReadChunk, Alone, Get, AbortStream, SetAllChunkSize;
    match e
    case Took(w) =>
      AcceptedCsid(reg, w);
      ReadAlone(reg, w, csid);
    case Aborted(a) =>
      AloneAbort(reg, a, csid);
    case Resized(n) =>
      AloneResize(reg, n, csid);
  }

  lemma {:induction false} MessagesOnConcat(a: seq<Message>, b: seq<Message>, csid: u32)
    ensures MessagesOn(a + b, csid) == MessagesOn(a, csid) + MessagesOn(b, csid)
  {
    if a == [] {
      assert a + b == b;
    } else {
      MessagesOnConcat(a[1..], b, csid);
      assert (a + b)[1..] == a[1..] + b && (a + b)[0] == a[0];
      var head := if a[0].csid == csid then [a[0]] else [];
      var left, right := MessagesOn(a[1..], csid), MessagesOn(b, csid);
      assert head + (left + right) == (head + left) + right;
    }
  }

  /**
   While no cap is hit, the messages of one chunk stream do not depend on the
   others: dropping every chunk of the other streams from the wire, and their
   aborts, changes nothing on this one.
   */
  lemma {:induction false} StreamsAreIndependent(reg: Registry, evs: seq<WireEvent>, csid: u32)
    requires AcceptsAll(reg, evs)
    ensures AcceptsAll(Alone(reg, csid), Only(evs, csid))
    ensures MessagesOn(Messages(reg, evs), csid) == Messages(Alone(reg, csid), Only(evs, csid))
    decreases |evs|
  {
    hide Accepts, Next, Emits, Alone, Concerns;
    if evs != [] {
      var e, rest := evs[0], evs[1..];
      NextAlone(reg, e, csid);
      StreamsAreIndependent(Next(reg, e), rest, csid);
      MessagesOnConcat(Emits(reg, e), Messages(Next(reg, e), rest), csid);
      if Concerns(e, csid) {
        assert Only(evs, csid)[1..] == Only(rest, csid);
      } else {
        assert Only(evs, csid) == Only(rest, csid);
      }
    }
  }

  // What a receiver drains is such a list of events

  function Asked(m: Option<Message>): seq<WireEvent> {
    if m.Some? then ControlEntries(m.value) else []
  }

  /** The chunk of one turn of the drain loop, cut out of the buffer, and what its message asks for. */
  function TurnEvents(r: Receiver): seq<WireEvent>
    requires CanStep(r)
  {
    match ReadChunk(r.reg, r.unread)
    case Consumed(_, n, _, m) => [Took(r.unread[..n])] + Asked(m)
    case _ => []
  }

  function EventsOf(r: Receiver): seq<WireEvent>
    decreases Left(r)
  {
    if CanStep(r) then TurnEvents(r) + EventsOf(Step(r)) else []
  }

  /** A control message acts on the registry as its event does. */
  lemma ControlActs(reg: Registry, m: Message, rest: seq<WireEvent>)
    requires Handle(reg, m).Ok? && AcceptsAll(Handle(reg, m).value, rest)
    ensures var evs := ControlEntries(m) + rest;
            AcceptsAll(reg, evs) && Messages(reg, evs) == Messages(Handle(reg, m).value, rest)
  {
    hide AbortStream, SetAllChunkSize, ReadSetChunkSize, ReadAbortMessage;
    var evs := ControlEntries(m) + rest;
    if ControlEntries<bytes>(m) == [] {
      assert evs == rest;
    } else {
      assert evs[1..] == rest;
      assert [] + Messages(Handle(reg, m).value, rest) == Messages(Handle(reg, m).value, rest);
    }
  }

  /** What the message of a turn, if any, asks for, in front of the rest. */
  lemma AskedActs(reg: Registry, m: Option<Message>, reg': Registry, rest: seq<WireEvent>)
    requires AcceptsAll(reg', rest)
    requires reg' == if m.Some? && Handle(reg, m.value).Ok? then Handle(reg, m.value).value else reg
    ensures var tail := Asked(m) + rest;
            AcceptsAll(reg, tail) && Messages(reg, tail) == Messages(reg', rest)
  {
    hide AcceptsAll, Messages, Handle, ControlEntries;
    if m.Some? {
      if Handle(reg, m.value).Ok? {
        ControlActs(reg, m.value, rest);
      } else {
        RefusedControl(reg, m.value);
      }
    }
    Regroup([], [], rest);
  }

  /** One turn in front of what the rest of the drain does. */
  lemma TurnActs(r: Receiver, rest: seq<WireEvent>)
    requires CanStep(r) && AcceptsAll(Step(r).reg, rest) && (Step(r).Failed? ==> rest == [])
    ensures AcceptsAll(r.reg, TurnEvents(r) + rest)
    ensures r.delivered + Messages(r.reg, TurnEvents(r) + rest) == Step(r).delivered + Messages(Step(r).reg, rest)
  {
    hide ReadChunk, Asked, Handle, HandedOf, AcceptsAll, Messages;
    var out := ReadChunk(r.reg, r.unread);
    if out.Consumed? {
      var w, tail := r.unread[..out.wireLen], Asked(out.message) + rest;
      OwnBytesSuffice(r.reg, r.unread);
      AskedActs(out.reg, out.message, Step(r).reg, rest);
      ChunkActs(r.reg, w, tail);
      Regroup([Took(w)], Asked(out.message), rest);
      Regroup(r.delivered, Emits(r.reg, Took(w)), Messages(Step(r).reg, rest));
    } else {
      Regroup([], [], rest);
    }
  }

  lemma ChunkActs(reg: Registry, w: bytes, tail: seq<WireEvent>)
    requires Accepts(reg, Took(w)) && AcceptsAll(ReadChunk(reg, w).reg, tail)
    ensures var evs := [Took(w)] + tail;
            && AcceptsAll(reg, evs)
            && Messages(reg, evs) == Emits(reg, Took(w)) + Messages(ReadChunk(reg, w).reg, tail)
  {
    hide ReadChunk;
    assert ([Took(w)] + tail)[1..] == tail;
  }

  lemma RefusedControl(reg: Registry, m: Message)
    requires Handle(reg, m).Err?
    ensures ControlEntries<bytes>(m) == []
  {
  }

  /** Whatever bytes arrive, a drain is a list of accepted events, and delivers what they emit. */
  lemma {:induction false} DrainIsEvents(r: Receiver)
    ensures AcceptsAll(r.reg, EventsOf(r)) && Drain(r).delivered == r.delivered + Messages(r.reg, EventsOf(r))
    decreases Left(r)
  {
    hide ReadChunk, Step, TurnEvents, Accepts, Next, Emits;
    if CanStep(r) {
      var r' := Step(r);
      DrainIsEvents(r');
      TurnActs(r, EventsOf(r'));
    }
  }

  /**
   So among all that a receiver drains, the messages of one chunk stream are
   what its own chunks and aborts, with the chunk sizes, give by themselves.
   */
  lemma DrainedStreamsAreIndependent(reg: Registry, wire: bytes, listening: bool, csid: u32)
    ensures var r := Receiving(reg, wire, listening);
            var own := Only(EventsOf(r), csid);
            AcceptsAll(Alone(reg, csid), own) && MessagesOn(Drain(r).delivered, csid) == Messages(Alone(reg, csid), own)
  {
    hide Drain, EventsOf, Alone, Only, AcceptsAll;
    var r := Receiving(reg, wire, listening);
    DrainIsEvents(r);
    assert [] + Messages(reg, EventsOf(r)) == Messages(reg, EventsOf(r));
    StreamsAreIndependent(reg, EventsOf(r), csid);
  }
}
