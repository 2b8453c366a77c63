/**
 Demultiplexing: what a log of accepted chunks, aborts and chunk-size changes
 means. `MessagesOf` reads the messages off the log alone; the reader, which
 works on its registry, is shown to deliver exactly those.
 */
module Demux {
  import opened Bytes
  import opened ChunkWire
  import opened ChunkState
  import opened ChunkReader
  import opened Control
  import opened Receivers

  type LogEntry = Logged<Chunk>

  function ApplyEntry(reg: Registry, e: LogEntry): Registry {
    match e
    case Took(c) => Put(reg, Advance(StreamFor(reg, c.csid), c).stream)
    case Aborted(csid) => AbortStream(reg, csid)
    case Resized(n) => SetAllChunkSize(reg, n)
  }

  function After(reg: Registry, log: seq<LogEntry>): Registry {
    if log == [] then reg else ApplyEntry(After(reg, log[..|log| - 1]), log[|log| - 1])
  }

  function Last(log: seq<LogEntry>): LogEntry
    requires log != []
  {
    log[|log| - 1]
  }

  function Init(log: seq<LogEntry>): seq<LogEntry>
    requires log != []
  {
    log[..|log| - 1]
  }

  /** The message that the last entry of a log completes, if any. */
  function Delivery(reg: Registry, log: seq<LogEntry>): Option<Message> {
    if log == [] || !Last(log).Took? then None
    else Advance(StreamFor(After(reg, Init(log)), Last(log).chunk.csid), Last(log).chunk).message
  }

  function Deliveries(reg: Registry, log: seq<LogEntry>): seq<Message> {
    if log == [] then []
    else Deliveries(reg, Init(log)) + (if Delivery(reg, log).Some? then [Delivery(reg, log).value] else [])
  }

  /** Every chunk in the log was acceptable to its stream when it was taken. */
  ghost predicate LogOk(reg: Registry, log: seq<LogEntry>) {
    log != [] ==>
      && LogOk(reg, Init(log))
      && (Last(log).Took? ==>
            Admissible(StreamFor(After(reg, Init(log)), Last(log).chunk.csid), Last(log).chunk))
  }

  // What a log says about one chunk stream

  predicate TakesOn(e: LogEntry, csid: u32) {
    e.Took? && e.chunk.csid == csid
  }

  /** What the headers on a stream declare: the last fmt 0 or 1 gives length and type, the last fmt 0 the stream id. */
  datatype Declared = Declared(length: nat, typeId: byte, streamId: u32)

  function DeclaredOn(log: seq<LogEntry>, csid: u32): Declared {
    if log == [] then Declared(0, 0, 0)
    else
      var before := DeclaredOn(Init(log), csid);
      if !TakesOn(Last(log), csid) then before
      else
        var c := Last(log).chunk;
        if c.fmt == 0 then Declared(c.length, c.typeId, c.streamId)
        else if c.fmt == 1 then Declared(c.length, c.typeId, before.streamId)
        else before
  }

  /** The bodies of the stream's latest message so far. */
  function Gathered(log: seq<LogEntry>, csid: u32): bytes
    decreases |log|, 1
  {
    Bodies(log[StartIndex(log, csid)..], csid)
  }

  /** A message is in flight on the stream: it is shorter than declared and was not aborted. */
  predicate InFlight(log: seq<LogEntry>, csid: u32)
    decreases |log|, 2
  {
    if log == [] then false
    else if TakesOn(Last(log), csid) then |Gathered(log, csid)| < DeclaredOn(log, csid).length
    else if Last(log) == Aborted(csid) then false
    else InFlight(Init(log), csid)
  }

  /** The last entry starts a message: fmt 0, 1 or 2, or fmt 3 with nothing in flight. */
  predicate StartsMessage(log: seq<LogEntry>)
    requires log != [] && Last(log).Took?
    decreases |log|, 0, 0
  {
    Last(log).chunk.fmt <= 2 || !InFlight(Init(log), Last(log).chunk.csid)
  }

  /** Where in the log the stream's latest message started. */
  function StartIndex(log: seq<LogEntry>, csid: u32): (k: nat)
    ensures k <= |log|
    decreases |log|, 0, 1
  {
    if log == [] then 0
    else if TakesOn(Last(log), csid) && StartsMessage(log) then |log| - 1
    else StartIndex(Init(log), csid)
  }

  /** The chunk bodies of one stream, concatenated. */
  function Bodies(log: seq<LogEntry>, csid: u32): bytes {
    if log == [] then []
    else Bodies(Init(log), csid) + if TakesOn(Last(log), csid) then Last(log).chunk.body else []
  }

  lemma BodiesFrom(log: seq<LogEntry>, csid: u32, k: nat)
    requires log != [] && k < |log|
    ensures Bodies(log[k..], csid)
         == Bodies(Init(log)[k..], csid) + if TakesOn(Last(log), csid) then Last(log).chunk.body else []
  {
    assert Init(log[k..]) == Init(log)[k..];
  }

  /** The lookups after one more entry: only the entry's own stream changes, besides a resize. */
  lemma GetAfterEntry(reg: Registry, e: LogEntry, csid: u32)
    ensures Get(ApplyEntry(reg, e), csid)
         == match e {
              case Took(c) => if c.csid == csid then Some(Advance(StreamFor(reg, csid), c).stream) else Get(reg, csid)
              case Aborted(a) => if a == csid && Get(reg, csid).Some? then Some(EmptiedStream(Get(reg, csid).value))
                                 else Get(reg, csid)
              case Resized(n) => if DEFAULT_CHUNK_SIZE <= n <= MAX_PEER_CHUNK_SIZE && Get(reg, csid).Some?
                                 then Some(Get(reg, csid).value.(chunkSize := n)) else Get(reg, csid)
            }
  {
    hide Find, Put, Get;
    match e
    case Took(c) =>
      assert Advance(StreamFor(reg, c.csid), c).stream.csid == c.csid;
      GetPut(reg, Advance(StreamFor(reg, c.csid), c).stream, csid);
    case Aborted(a) =>
      if Get(reg, a).Some? {
        GetPut(reg, EmptiedStream(Get(reg, a).value), csid);
      }
    case Resized(n) =>
      if DEFAULT_CHUNK_SIZE <= n <= MAX_PEER_CHUNK_SIZE {
        GetSetAllChunkSize(reg, n, csid);
      }
  }

  /** The header fields a stream inherits from are the declared ones. */
  ghost predicate HeaderAgrees(s: ChunkStream, d: Declared) {
    s.msgLength == d.length && s.msgTypeId == d.typeId && s.msgStreamId == d.streamId
  }

  lemma {:induction false} HeaderFollowsLog(reg: Registry, log: seq<LogEntry>, csid: u32)
    requires reg.streams == []
    ensures HeaderAgrees(StreamFor(After(reg, log), csid), DeclaredOn(log, csid))
  {
    hide Get, ApplyEntry, WrapAdd32;
    if log != [] {
      HeaderFollowsLog(reg, Init(log), csid);
      GetAfterEntry(After(reg, Init(log)), Last(log), csid);
    } else {
      GetEmpty(reg, csid);
    }
  }

  /** What the log says about a stream is what the registry holds for it. */
  ghost predicate StreamAgrees(reg: Registry, log: seq<LogEntry>, csid: u32) {
    match Get(After(reg, log), csid)
    case None => !InFlight(log, csid)
    case Some(s) =>
      && StreamOk(s)
      && (InFlight(log, csid) <==> s.bytesRead != 0)
      && (InFlight(log, csid) ==> s.partial == Gathered(log, csid))
  }

  lemma {:induction false} DefaultStaysPositive(reg: Registry, log: seq<LogEntry>)
    requires reg.defaultChunkSize >= 1
    ensures After(reg, log).defaultChunkSize >= 1
  {
    if log != [] {
      DefaultStaysPositive(reg, Init(log));
    }
  }

  lemma {:induction false} StreamFollowsLog(reg: Registry, log: seq<LogEntry>, csid: u32)
    requires reg.streams == [] && reg.defaultChunkSize >= 1 && LogOk(reg, log)
    ensures StreamAgrees(reg, log, csid)
  {
    if log != [] {
      StreamFollowsLog(reg, Init(log), csid);
      DefaultStaysPositive(reg, Init(log));
      EntryAgrees(reg, log, csid);
    }
  }

  lemma EntryAgrees(reg: Registry, log: seq<LogEntry>, csid: u32)
    requires reg.streams == [] && log != [] && LogOk(reg, log) && StreamAgrees(reg, Init(log), csid)
    requires After(reg, Init(log)).defaultChunkSize >= 1
    ensures StreamAgrees(reg, log, csid)
  {
    hide Get, ApplyEntry, Advance, StreamOk;
    var before := After(reg, Init(log));
    GetAfterEntry(before, Last(log), csid);
    if TakesOn(Last(log), csid) {
      TakenAgrees(reg, log);
    } else if Last(log) == Aborted(csid) {
      if Get(before, csid).Some? {
        AbortedOk(Get(before, csid).value);
      }
    } else {
      if Get(before, csid).Some? {
        ResizedOk(Get(before, csid).value, if Last(log).Resized? then Last(log).n else 1);
      }
      if InFlight(log, csid) {
        StartIndexOfFlight(Init(log), csid);
        BodiesFrom(log, csid, StartIndex(log, csid));
      }
    }
  }

  lemma AbortedOk(s: ChunkStream)
    requires StreamOk(s)
    ensures StreamOk(EmptiedStream(s))
  {
  }

  lemma ResizedOk(s: ChunkStream, n: nat)
    requires StreamOk(s)
    ensures n >= 1 ==> StreamOk(s.(chunkSize := n))
  {
  }

  /** A message in flight has its start in the log. */
  lemma {:induction false} StartIndexOfFlight(log: seq<LogEntry>, csid: u32)
    requires InFlight(log, csid)
    ensures StartIndex(log, csid) < |log|
  {
    if !(TakesOn(Last(log), csid) && StartsMessage(log)) {
      StartIndexOfFlight(Init(log), csid);
    }
  }

  /** The chunk just taken: the reader has the stream's bodies since the start, and is done when they are long enough. */
  lemma TakenAgrees(reg: Registry, log: seq<LogEntry>)
    requires reg.streams == [] && log != [] && Last(log).Took? && LogOk(reg, log)
    requires StreamAgrees(reg, Init(log), Last(log).chunk.csid)
    requires After(reg, Init(log)).defaultChunkSize >= 1
    ensures StreamAgrees(reg, log, Last(log).chunk.csid)
    ensures var c := Last(log).chunk;
            var a := Absorbed(StreamFor(After(reg, Init(log)), c.csid), c);
            && a.partial == Gathered(log, c.csid) && a.bytesRead == |a.partial|
            && HeaderAgrees(a, DeclaredOn(log, c.csid))
  {
    hide Get, WrapAdd32, Gathered, LogOk;
    var c := Last(log).chunk;
    var before := After(reg, Init(log));
    var s := StreamFor(before, c.csid);
    GetAfterEntry(before, Last(log), c.csid);
    HeaderFollowsLog(reg, Init(log), c.csid);
    GatherOne(log);
    LastAdmissible(reg, log);
    AdvanceOk(s, c);
  }

  lemma LastAdmissible(reg: Registry, log: seq<LogEntry>)
    requires log != [] && Last(log).Took? && LogOk(reg, log)
    ensures Admissible(StreamFor(After(reg, Init(log)), Last(log).chunk.csid), Last(log).chunk)
  {
  }

  /** One more chunk adds its body, to nothing if it starts a message. */
  lemma GatherOne(log: seq<LogEntry>)
    requires log != [] && Last(log).Took?
    ensures var c := Last(log).chunk;
            Gathered(log, c.csid) == (if StartsMessage(log) then [] else Gathered(Init(log), c.csid)) + c.body
  {
    hide InFlight;
    var c := Last(log).chunk;
    var k := StartIndex(log, c.csid);
    if StartsMessage(log) {
      assert log[k..] == [Last(log)];
      assert Init([Last(log)]) == [];
      assert Bodies([Last(log)], c.csid) == Bodies([], c.csid) + c.body;
    } else {
      StartIndexOfFlight(Init(log), c.csid);
      BodiesFrom(log, c.csid, k);
    }
  }

  /**
   Each delivered payload is exactly the concatenation of the chunk bodies on
   its chunk stream since that stream's last message start, delivered as soon as
   it has the length declared in the header and with the declared type and
   stream id, for any interleaving with the other streams, any restarts and
   aborts, and any chunk-size changes in between.
   */
  lemma DeliveredPayload(reg: Registry, log: seq<LogEntry>)
    requires reg.streams == [] && reg.defaultChunkSize >= 1 && LogOk(reg, log)
    requires log != [] && Last(log).Took?
    ensures var csid := Last(log).chunk.csid;
            && (Delivery(reg, log).Some? <==> !InFlight(log, csid))
            && (Delivery(reg, log).Some? ==>
                  var m, d := Delivery(reg, log).value, DeclaredOn(log, csid);
                  && m.csid == csid && m.fmt == Last(log).chunk.fmt
                  && m.payload == Gathered(log, csid) && |m.payload| == m.length
                  && m.length == d.length && m.typeId == d.typeId && m.streamId == d.streamId)
  {
    hide Get, ApplyEntry, ApplyHeader, Gathered, DeclaredOn;
    var c := Last(log).chunk;
    StreamFollowsLog(reg, Init(log), c.csid);
    DefaultStaysPositive(reg, Init(log));
    TakenAgrees(reg, log);
    AdvanceOk(StreamFor(After(reg, Init(log)), c.csid), c);
  }

  // Running timestamps

  /** The header that started a message: `value` is the timestamp for fmt 0 and the delta for fmt 1 and 2. */
  datatype Start = Start(fmt: Fmt, value: u32)

  /** The message starts on one stream, in order. */
  function Starts(log: seq<LogEntry>, csid: u32): seq<Start> {
    if log == [] then []
    else if TakesOn(Last(log), csid) && StartsMessage(log) then
      Starts(Init(log), csid) + [Start(Last(log).chunk.fmt, Last(log).chunk.tsField)]
    else Starts(Init(log), csid)
  }

  /** The delta of the last start: a fmt 3 repeats the one before, and after a fmt 0 its timestamp. */
  function DeltaOf(hs: seq<Start>): nat {
    if hs == [] then 0
    else if hs[|hs| - 1].fmt == 3 then DeltaOf(hs[..|hs| - 1])
    else hs[|hs| - 1].value
  }

  /** The last fmt 0 timestamp plus all later deltas, without wrapping. */
  function Clock(hs: seq<Start>): nat {
    if hs == [] then 0
    else if hs[|hs| - 1].fmt == 0 then hs[|hs| - 1].value
    else Clock(hs[..|hs| - 1]) + DeltaOf(hs)
  }

  /**
   The running timestamp of a stream is, modulo 2^32, the last absolute
   timestamp plus every delta since; continuation chunks add nothing.
   */
  lemma {:induction false} RunningTimestamp(reg: Registry, log: seq<LogEntry>, csid: u32)
    requires reg.streams == [] && reg.defaultChunkSize >= 1 && LogOk(reg, log)
    ensures match Get(After(reg, log), csid) {
              case None => Starts(log, csid) == []
              case Some(s) => s.timestamp == Clock(Starts(log, csid)) % U32_MODULUS
                              && s.lastDelta == DeltaOf(Starts(log, csid))
            }
  {
    hide Get, ApplyEntry, StartsMessage, Advance, Clock, DeltaOf;
    if log != [] {
      var before := After(reg, Init(log));
      RunningTimestamp(reg, Init(log), csid);
      GetAfterEntry(before, Last(log), csid);
      if TakesOn(Last(log), csid) {
        ClockOfNothing();
        TakenTimestamp(reg, log);
      }
    } else {
      GetEmpty(reg, csid);
    }
  }

  lemma GetEmpty(reg: Registry, csid: u32)
    requires reg.streams == []
    ensures Get(reg, csid) == None
  {
  }

  lemma ClockOfNothing()
    ensures Clock([]) == 0 && DeltaOf([]) == 0
  {
  }

  lemma WrapsOnce(a: nat, d: u32)
    ensures WrapAdd32(a % U32_MODULUS, d) == (a + d) % U32_MODULUS
  {
  }

  ghost predicate OnClock(s: ChunkStream, hs: seq<Start>) {
    s.timestamp == Clock(hs) % U32_MODULUS && s.lastDelta == DeltaOf(hs)
  }

  /** A chunk that starts a message moves the clock by its own entry; a continuation does not move it. */
  lemma AdvanceOnClock(s: ChunkStream, c: Chunk, hs: seq<Start>)
    requires OnClock(s, hs)
    ensures var starts := c.fmt <= 2 || s.bytesRead == 0;
            OnClock(Advance(s, c).stream, if starts then hs + [Start(c.fmt, c.tsField)] else hs)
  {
    hide Clock, DeltaOf, WrapAdd32;
    ClockAppend(hs, Start(c.fmt, c.tsField));
    WrapsOnce(Clock(hs), c.tsField);
    WrapsOnce(Clock(hs), s.lastDelta);
    ClockWraps(c.tsField);
  }

  lemma ClockAppend(hs: seq<Start>, h: Start)
    ensures DeltaOf(hs + [h]) == if h.fmt == 3 then DeltaOf(hs) else h.value
    ensures Clock(hs + [h]) == if h.fmt == 0 then h.value else Clock(hs) + DeltaOf(hs + [h])
  {
    assert (hs + [h])[..|hs|] == hs;
  }

  lemma ClockWraps(v: u32)
    ensures v % U32_MODULUS == v
  {
  }

  lemma TakenTimestamp(reg: Registry, log: seq<LogEntry>)
    requires reg.streams == [] && reg.defaultChunkSize >= 1 && LogOk(reg, log)
    requires log != [] && Last(log).Took?
    requires var c := Last(log).chunk;
             OnClock(StreamFor(After(reg, Init(log)), c.csid), Starts(Init(log), c.csid))
    ensures var c := Last(log).chunk;
            OnClock(Advance(StreamFor(After(reg, Init(log)), c.csid), c).stream, Starts(log, c.csid))
  {
    hide Get, After, Clock, DeltaOf, Advance, InFlight, Bodies, StartIndex;
    var c := Last(log).chunk;
    StreamFollowsLog(reg, Init(log), c.csid);
    AdvanceOnClock(StreamFor(After(reg, Init(log)), c.csid), c, Starts(Init(log), c.csid));
  }

  /** Every delivered message carries the clock of its stream. */
  lemma DeliveredTimestamp(reg: Registry, log: seq<LogEntry>)
    requires reg.streams == [] && reg.defaultChunkSize >= 1 && LogOk(reg, log)
    requires Delivery(reg, log).Some?
    ensures var m := Delivery(reg, log).value;
            m.timestamp == Clock(Starts(log, m.csid)) % U32_MODULUS
  {
    hide Get, Clock, DeltaOf, Starts;
    var c := Last(log).chunk;
    RunningTimestamp(reg, log, c.csid);
    GetAfterEntry(After(reg, Init(log)), Last(log), c.csid);
  }

  // Every receiver run is such a log

  /** The log entries of one turn of the drain loop. */
  function Entries(r: Receiver): seq<LogEntry>
    requires CanStep(r)
  {
    match ReadChunk(r.reg, r.unread)
    case Waiting => []
    case Refused => []
    case Consumed(c, _, reg, m) =>
      [Took(c)] + if m.Some? then ControlEntries(m.value) else []
  }

  function LogOf(r: Receiver): seq<LogEntry>
    decreases Left(r)
  {
    if CanStep(r) then Entries(r) + LogOf(Step(r)) else []
  }

  lemma {:induction false} AfterConcat(reg: Registry, a: seq<LogEntry>, b: seq<LogEntry>)
    ensures After(reg, a + b) == After(After(reg, a), b)
    ensures Deliveries(reg, a + b) == Deliveries(reg, a) + Deliveries(After(reg, a), b)
    ensures LogOk(reg, a) && LogOk(After(reg, a), b) ==> LogOk(reg, a + b)
    decreases |b|
  {
    hide ApplyEntry, Advance, Admissible, StreamFor;
    if b == [] {
      assert a + b == a;
    } else {
      assert Init(a + b) == a + Init(b) && Last(a + b) == Last(b);
      AfterConcat(reg, a, Init(b));
      var m := if Delivery(reg, a + b).Some? then [Delivery(reg, a + b).value] else [];
      assert Delivery(reg, a + b) == Delivery(After(reg, a), b);
      assert Deliveries(reg, a) + Deliveries(After(reg, a), Init(b)) + m
          == Deliveries(reg, a) + (Deliveries(After(reg, a), Init(b)) + m);
    }
  }

  lemma TookEntry(reg: Registry, b: bytes)
    requires ReadChunk(reg, b).Consumed?
    ensures var out := ReadChunk(reg, b);
            var took := [Took(out.chunk)];
            && After(reg, took) == out.reg
            && Deliveries(reg, took) == (if out.message.Some? then [out.message.value] else [])
            && LogOk(reg, took)
  {
    AcceptedIsAdmissible(reg, b);
    var out := ReadChunk(reg, b);
    var took := [Took(out.chunk)];
    assert Init(took) == [];
    hide PlanFor, Put, Advance, Admissible, StreamFor;
    assert After(reg, took) == ApplyEntry(reg, Took(out.chunk));
    assert Delivery(reg, took) == out.message;
  }

  lemma ControlEntry(reg: Registry, m: Message)
    ensures var more := ControlEntries(m);
            && After(reg, more) == (if Handle(reg, m).Ok? then Handle(reg, m).value else reg)
            && Deliveries(reg, more) == []
            && LogOk(reg, more)
  {
    hide AbortStream, SetAllChunkSize, ReadSetChunkSize, ReadAbortMessage;
    var more := ControlEntries(m);
    if more != [] {
      assert Init(more) == [];
    }
  }

  /** One turn of the drain loop does to the registry and the deliveries what its entries say. */
  lemma StepFollowsEntries(r: Receiver)
    requires CanStep(r)
    ensures Step(r).reg == After(r.reg, Entries(r))
    ensures Step(r).delivered == r.delivered + Deliveries(r.reg, Entries(r))
    ensures LogOk(r.reg, Entries(r))
  {
    hide ReadChunk, Handle, HandedOf, ControlEntries, After, Deliveries, LogOk;
    var out := ReadChunk(r.reg, r.unread);
    if out.Consumed? {
      var took := [Took(out.chunk)];
      TookEntry(r.reg, r.unread);
      if out.message.Some? {
        ControlEntry(out.reg, out.message.value);
        AfterConcat(r.reg, took, ControlEntries(out.message.value));
      } else {
        assert took + [] == took;
      }
    } else {
      NoEntries(r.reg);
    }
  }

  lemma NoEntries(reg: Registry)
    ensures After(reg, []) == reg && Deliveries(reg, []) == [] && LogOk(reg, [])
  {
  }

  /** A drained receiver is described by its log: the same registry, the same deliveries, all chunks admissible. */
  lemma {:induction false} DrainFollowsLog(r: Receiver)
    ensures Drain(r).reg == After(r.reg, LogOf(r))
    ensures Drain(r).delivered == r.delivered + Deliveries(r.reg, LogOf(r))
    ensures LogOk(r.reg, LogOf(r))
    decreases Left(r)
  {
    hide ReadChunk, Step, Entries, ApplyEntry;
    if CanStep(r) {
      StepFollowsEntries(r);
      DrainFollowsLog(Step(r));
      AfterConcat(r.reg, Entries(r), LogOf(Step(r)));
    }
  }

  // The messages, read off the log

  /** The message that the last entry of a log completes. */
  function MessageOf(log: seq<LogEntry>): Option<Message> {
    if log == [] || !Last(log).Took? || InFlight(log, Last(log).chunk.csid) then None
    else
      var c := Last(log).chunk;
      var d := DeclaredOn(log, c.csid);
      Some(Message(c.csid, c.fmt, Clock(Starts(log, c.csid)) % U32_MODULUS, d.length, d.typeId, d.streamId,
                   Gathered(log, c.csid)))
  }

  function MessagesOf(log: seq<LogEntry>): seq<Message> {
    if log == [] then []
    else MessagesOf(Init(log)) + (if MessageOf(log).Some? then [MessageOf(log).value] else [])
  }

  /** The reader delivers exactly the messages of the log: none missing, none extra, every field as declared. */
  lemma {:induction false} DeliveriesAreTheMessages(reg: Registry, log: seq<LogEntry>)
    requires reg.streams == [] && reg.defaultChunkSize >= 1 && LogOk(reg, log)
    ensures Deliveries(reg, log) == MessagesOf(log)
  {
    hide Advance, ApplyEntry, Gathered, DeclaredOn, Clock, Starts, InFlight;
    if log != [] {
      DeliveriesAreTheMessages(reg, Init(log));
      if Last(log).Took? {
        DeliveredPayload(reg, log);
        if Delivery(reg, log).Some? {
          DeliveredTimestamp(reg, log);
        }
      }
    }
  }

  /**
   Whatever bytes a connection receives, the messages it delivers are those of
   its log of chunks, aborts and resizes: on each stream the bodies since the
   message started, complete at the declared length, with the declared type and
   stream id and the stream's running timestamp.
   */
  lemma EveryDeliveryIsExact(reg: Registry, wire: bytes, listening: bool)
    requires reg.streams == [] && reg.defaultChunkSize >= 1
    ensures Drain(Receiving(reg, wire, listening)).delivered == MessagesOf(LogOf(Receiving(reg, wire, listening)))
  {
    hide Drain, LogOf, MessagesOf, After;
    var r := Receiving(reg, wire, listening);
    DrainFollowsLog(r);
    DeliveriesAreTheMessages(reg, LogOf(r));
    assert [] + Deliveries(reg, LogOf(r)) == Deliveries(reg, LogOf(r));
  }
}
