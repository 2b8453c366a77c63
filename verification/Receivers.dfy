/**
 The receiving side of a connection: bytes arrive in arbitrary pieces, polls
 drain complete messages up to a budget, and the control messages among them
 steer the registry (`drain_ready_messages` of src/client/mod.rs).
 */
module Receivers {
  import opened Bytes
  import opened Buffers
  import opened ChunkState
  import opened ChunkReader
  import opened ChunkRegistries
  import opened Control
  import opened MediaOut
  import opened FrameDelivery

  /**
   The messages in the order they were completed, and for each what was handled
   of it. A failed receiver is dead: the connection is torn down.
   */
  datatype Receiver =
    | Running(reg: Registry, unread: bytes, delivered: seq<Message>, handled: seq<seq<Unit>>, listening: bool)
    | Failed(reg: Registry, delivered: seq<Message>, handled: seq<seq<Unit>>, error: ErrorCode)

  /** A receiver that has handled nothing yet. */
  function Receiving(reg: Registry, unread: bytes, listening: bool): Receiver {
    Running(reg, unread, [], [], listening)
  }

  /** What a complete message does to the registry before the next chunk is read. */
  function Handle(reg: Registry, m: Message): Result<Registry> {
    if m.typeId == MSG_SET_CHUNK_SIZE then
      match ReadSetChunkSize(m.payload)
      case Ok(n) => Ok(ChunkState.SetAllChunkSize(reg, n))
      case Err(e) => Err(e)
    else if m.typeId == MSG_ABORT_MESSAGE then
      match ReadAbortMessage(m.payload)
      case Ok(csid) => Ok(ChunkState.AbortStream(reg, csid))
      case Err(_) => Ok(reg)
    else Ok(reg)
  }

  /** What happens to a registry: a chunk, in whatever form it is recorded, an abort or a new chunk size. */
  datatype Logged<+T> = Took(chunk: T) | Aborted(csid: u32) | Resized(n: nat)

  /** What a message asks of the registry. */
  function ControlEntries<T>(m: Message): (es: seq<Logged<T>>)
    ensures |es| <= 1 && forall e :: e in es ==> !e.Took?
  {
    if m.typeId == MSG_SET_CHUNK_SIZE && ReadSetChunkSize(m.payload).Ok? then
      [Resized(ReadSetChunkSize(m.payload).value)]
    else if m.typeId == MSG_ABORT_MESSAGE && ReadAbortMessage(m.payload).Ok? then
      [Aborted(ReadAbortMessage(m.payload).value)]
    else []
  }

  predicate CanStep(r: Receiver) {
    r.Running? && !ReadChunk(r.reg, r.unread).Waiting?
  }

  /** A complete message is recorded with what is handled of it, and handled. */
  function Deliver(r: Receiver, reg: Registry, m: Message, h: Handed, rest: bytes): Receiver
    requires r.Running?
  {
    var delivered, handled := r.delivered + [m], r.handled + [h.units];
    match Handle(reg, m)
    case Err(e) => Failed(reg, delivered, handled, e)
    case Ok(reg') =>
      if h.error.Some? then Failed(reg', delivered, handled, h.error.value)
      else Running(reg', rest, delivered, handled, r.listening)
  }

  /** All that a message holds, or as much of it as there are units left. */
  function HandedOf(listening: bool, m: Message, left: Option<nat>): (h: Handed)
    ensures left.Some? ==> |h.units| <= left.value
  {
    match left
    case None => Presented(listening, m.typeId, m.timestamp, m.payload)
    case Some(n) => PresentedWithin(listening, m.typeId, m.timestamp, m.payload, n)
  }

  /** One turn of the drain loop that makes progress. */
  function Turn(r: Receiver, left: Option<nat>): (r': Receiver)
    requires CanStep(r)
    ensures r'.Running? ==> |r'.unread| < |r.unread|
    ensures left.Some? ==> Counted(r, r') <= left.value
  {
    match ReadChunk(r.reg, r.unread)
    case Waiting => r
    case Refused => Failed(r.reg, r.delivered, r.handled, BadChunk)
    case Consumed(_, n, reg, m) =>
      if m.None? then r.(reg := reg, unread := r.unread[n..])
      else Deliver(r, reg, m.value, HandedOf(r.listening, m.value, left), r.unread[n..])
  }

  /** The units that a turn counted. */
  function Counted(r: Receiver, r': Receiver): nat {
    if |r'.handled| > |r.handled| then |r'.handled[|r.handled|]| else 0
  }

  function Step(r: Receiver): (r': Receiver)
    requires CanStep(r)
    ensures r'.Running? ==> |r'.unread| < |r.unread|
  {
    Turn(r, None)
  }

  function Left(r: Receiver): nat {
    if r.Running? then 1 + |r.unread| else 0
  }

  /** Draining without a budget; every turn consumes bytes or ends the connection. */
  function Drain(r: Receiver): (r': Receiver)
    ensures !CanStep(r')
    decreases Left(r)
  {
    if CanStep(r) then Drain(Step(r)) else r
  }

  /** Draining until `budget` units have been counted. */
  function DrainBudget(r: Receiver, budget: nat): Receiver
    decreases Left(r)
  {
    if budget == 0 || !CanStep(r) then r
    else
      var r' := Turn(r, Some(budget));
      DrainBudget(r', budget - Counted(r, r'))
  }

  /** The next turn completes a message that holds more units than are left. */
  predicate CutsShort(r: Receiver, left: nat)
    requires CanStep(r)
  {
    var out := ReadChunk(r.reg, r.unread);
    out.Consumed? && out.message.Some? && left < |HandedOf(r.listening, out.message.value, None).units|
  }

  /** A poll with this budget comes to handle a message with fewer units left than it holds. */
  predicate Cuts(r: Receiver, budget: nat)
    decreases Left(r)
  {
    && budget > 0
    && CanStep(r)
    && (CutsShort(r, budget)
        || var r' := Turn(r, Some(budget)); Cuts(r', budget - Counted(r, r')))
  }

  function Feed(r: Receiver, data: bytes): Receiver {
    if r.Running? then r.(unread := r.unread + data) else r
  }

  datatype Event = Arrive(data: bytes) | Poll(budget: nat)

  function Arrived(evs: seq<Event>): bytes {
    if evs == [] then []
    else (if evs[0].Arrive? then evs[0].data else []) + Arrived(evs[1..])
  }

  function Apply(r: Receiver, e: Event): Receiver {
    match e
    case Arrive(data) =>
      if r.Running? && |r.unread| + |data| > MAX_RECV_BUFFER_BYTES then Failed(r.reg, r.delivered, r.handled, Protocol)
      else Feed(r, data)
    case Poll(budget) => DrainBudget(r, budget)
  }

  function Run(r: Receiver, evs: seq<Event>): Receiver
    decreases |evs|
  {
    if evs == [] then r else Run(Apply(r, evs[0]), evs[1..])
  }

  /** The run hits the staging cap at some arrival. */
  predicate Overruns(r: Receiver, evs: seq<Event>)
    decreases |evs|
  {
    evs != []
    && ((evs[0].Arrive? && r.Running? && |r.unread| + |evs[0].data| > MAX_RECV_BUFFER_BYTES)
        || Overruns(Apply(r, evs[0]), evs[1..]))
  }

  /** Some poll of the run cuts a message short. */
  predicate Truncates(r: Receiver, evs: seq<Event>)
    decreases |evs|
  {
    evs != [] && ((evs[0].Poll? && Cuts(r, evs[0].budget)) || Truncates(Apply(r, evs[0]), evs[1..]))
  }

  /** With enough left a turn is the turn of a drain; otherwise it handles exactly as much of its message as is left. */
  lemma TurnWithin(r: Receiver, left: nat)
    requires CanStep(r)
    ensures !CutsShort(r, left) ==> Turn(r, Some(left)) == Step(r)
    ensures CutsShort(r, left) ==>
              exists part, all :: |part| == left < |all|
                && Turn(r, Some(left)).handled == r.handled + [part] && Step(r).handled == r.handled + [all]
  {
    hide ReadChunk, Handle, Presented, PresentedWithin;
    var out := ReadChunk(r.reg, r.unread);
    if out.Consumed? && out.message.Some? {
      var m := out.message.value;
      HandlesPrefix(r.listening, m.typeId, m.timestamp, m.payload, left);
      var part, all := HandedOf(r.listening, m, Some(left)).units, HandedOf(r.listening, m, None).units;
      assert Turn(r, Some(left)).handled == r.handled + [part] && Step(r).handled == r.handled + [all];
    }
  }

  /** A turn that can be taken now is the same turn after more bytes have arrived. */
  lemma StepThenFeed(r: Receiver, data: bytes)
    requires CanStep(r)
    ensures CanStep(Feed(r, data)) && Step(Feed(r, data)) == Feed(Step(r), data)
  {
    hide ReadChunk, Handle, HandedOf;
    VerdictIsFinal(r.reg, r.unread, data);
    var out := ReadChunk(r.reg, r.unread);
    if out.Consumed? {
      assert (r.unread + data)[out.wireLen..] == r.unread[out.wireLen..] + data;
    }
  }

  /** Polling first changes nothing, as long as no message is cut short. */
  lemma {:induction false} BudgetThenFeed(r: Receiver, budget: nat, data: bytes)
    requires !Cuts(r, budget)
    ensures Drain(Feed(DrainBudget(r, budget), data)) == Drain(Feed(r, data))
    decreases Left(r)
  {
    hide ReadChunk, Step, Turn, CutsShort;
    if budget != 0 && CanStep(r) {
      TurnWithin(r, budget);
      StepThenFeed(r, data);
      BudgetThenFeed(Step(r), budget - Counted(r, Step(r)), data);
    }
  }

  /** A connection that has failed stays as it is. */
  lemma {:induction false} FailedStays(r: Receiver, evs: seq<Event>)
    requires r.Failed?
    ensures Run(r, evs) == r && Drain(r) == r && !Truncates(r, evs)
    decreases |evs|
  {
    if evs != [] {
      FailedStays(r, evs[1..]);
    }
  }

  /** Draining ends in a protocol error only by delivering the message at fault. */
  lemma {:induction false} ProtocolErrorDelivers(r: Receiver)
    requires r.Running? && Drain(r).Failed? && Drain(r).error == Protocol
    ensures |Drain(r).delivered| > |r.delivered|
    decreases Left(r)
  {
    hide ReadChunk, Handle, HandedOf;
    assert CanStep(r);
    var r' := Step(r);
    if r'.Running? {
      ProtocolErrorDelivers(r');
    }
  }

  // What has been handled stays on record

  lemma TurnAppends(r: Receiver, left: Option<nat>)
    requires CanStep(r)
    ensures r.handled <= Turn(r, left).handled
  {
    hide ReadChunk, Handle, HandedOf;
  }

  lemma {:induction false} DrainAppends(r: Receiver)
    ensures r.handled <= Drain(r).handled
    decreases Left(r)
  {
    hide ReadChunk, Turn;
    if CanStep(r) {
      TurnAppends(r, None);
      DrainAppends(Step(r));
    }
  }

  lemma {:induction false} BudgetAppends(r: Receiver, budget: nat)
    ensures r.handled <= DrainBudget(r, budget).handled
    decreases Left(r)
  {
    hide ReadChunk, Turn;
    if budget != 0 && CanStep(r) {
      TurnAppends(r, Some(budget));
      var r' := Turn(r, Some(budget));
      BudgetAppends(r', budget - Counted(r, r'));
    }
  }

  lemma {:induction false} RunAppends(r: Receiver, evs: seq<Event>)
    ensures r.handled <= Run(r, evs).handled
    decreases |evs|
  {
    hide DrainBudget;
    if evs != [] {
      if evs[0].Poll? {
        BudgetAppends(r, evs[0].budget);
      }
      RunAppends(Apply(r, evs[0]), evs[1..]);
    }
  }

  /** A poll that cuts a message short leaves a record of it that draining never makes. */
  lemma {:induction false} CutMarks(r: Receiver, budget: nat, data: bytes) returns (k: nat)
    requires Cuts(r, budget)
    ensures var cut, whole := DrainBudget(r, budget).handled, Drain(Feed(r, data)).handled;
            |r.handled| <= k < |cut| && k < |whole| && 1 <= |cut[k]| < |whole[k]|
    decreases Left(r)
  {
    hide ReadChunk, Step, Turn, CutsShort;
    var r' := Turn(r, Some(budget));
    TurnWithin(r, budget);
    StepThenFeed(r, data);
    if CutsShort(r, budget) {
      k := |r.handled|;
      BudgetAppends(r', budget - Counted(r, r'));
      DrainAppends(Feed(Step(r), data));
    } else {
      TurnAppends(r, Some(budget));
      k := CutMarks(r', budget - Counted(r, r'), data);
    }
  }

  /** What arrives first and what arrives after it. */
  lemma FirstEvent(r: Receiver, evs: seq<Event>)
    requires evs != []
    ensures evs[0].Arrive? && (r.Failed? || |r.unread| + |evs[0].data| <= MAX_RECV_BUFFER_BYTES) ==>
              Feed(Apply(r, evs[0]), Arrived(evs[1..])) == Feed(r, Arrived(evs))
    ensures if evs[0].Poll? then Arrived(evs) == Arrived(evs[1..]) else Apply(r, evs[0]).handled == r.handled
  {
    hide DrainBudget;
    var rest := Arrived(evs[1..]);
    assert [] + rest == rest;
    if evs[0].Arrive? && r.Running? {
      assert (r.unread + evs[0].data) + rest == r.unread + (evs[0].data + rest);
    }
  }

  /** So does a run in which that happens. */
  lemma {:induction false} TruncationMarks(r: Receiver, evs: seq<Event>) returns (k: nat)
    requires Truncates(r, evs)
    ensures var cut, whole := Drain(Run(r, evs)).handled, Drain(Feed(r, Arrived(evs))).handled;
            |r.handled| <= k < |cut| && k < |whole| && 1 <= |cut[k]| < |whole[k]|
    decreases |evs|
  {
    hide ReadChunk, Step, Drain, DrainBudget, Cuts, Feed, Arrived;
    var r', rest := Apply(r, evs[0]), Arrived(evs[1..]);
    FirstEvent(r, evs);
    match evs[0]
    case Arrive(data) =>
      if r'.Failed? {
        FailedStays(r', evs[1..]);
      }
      k := TruncationMarks(r', evs[1..]);
    case Poll(budget) =>
      BudgetAppends(r, budget);
      if Cuts(r, budget) {
        k := CutMarks(r, budget, rest);
        RunAppends(r', evs[1..]);
        DrainAppends(Run(r', evs[1..]));
      } else {
        BudgetThenFeed(r, budget, rest);
        k := TruncationMarks(r', evs[1..]);
      }
  }

  /** If no message that arrives holds more than one unit, no poll cuts one short. */
  lemma SinglesAreNeverCut(r: Receiver, evs: seq<Event>)
    requires var whole := Drain(Feed(r, Arrived(evs))).handled;
             forall k :: |r.handled| <= k < |whole| ==> |whole[k]| <= 1
    ensures !Truncates(r, evs)
  {
    hide Drain, Truncates, Feed, Arrived;
    if Truncates(r, evs) {
      var k := TruncationMarks(r, evs);
    }
  }

  /**
   However the byte stream is cut into socket reads, and whenever and with
   whatever budgets it is polled, draining the rest at the end gives the
   messages, what was handled of each, the registry and the error of draining
   the whole stream at once, if and only if no read overfills the staging buffer
   and no poll handles a message with fewer units left than it holds.
   */
  lemma FragmentationIndependence(r: Receiver, evs: seq<Event>)
    ensures Drain(Run(r, evs)) == Drain(Feed(r, Arrived(evs))) <==> !Overruns(r, evs) && !Truncates(r, evs)
  {
    hide Drain, Run, Feed, Arrived, Overruns, Truncates;
    if Truncates(r, evs) {
      var k := TruncationMarks(r, evs);
    } else if Overruns(r, evs) {
      OverrunDiffers(r, evs);
    } else {
      RunsAgree(r, evs);
    }
  }

  lemma {:induction false} RunsAgree(r: Receiver, evs: seq<Event>)
    requires !Overruns(r, evs) && !Truncates(r, evs)
    ensures Drain(Run(r, evs)) == Drain(Feed(r, Arrived(evs)))
    decreases |evs|
  {
    hide ReadChunk, Step, Drain, DrainBudget, Cuts, Feed, Arrived;
    if evs == [] {
      NothingArrives(r);
    } else {
      FirstEvent(r, evs);
      RunsAgree(Apply(r, evs[0]), evs[1..]);
      if evs[0].Poll? {
        BudgetThenFeed(r, evs[0].budget, Arrived(evs[1..]));
      }
    }
  }

  lemma NothingArrives(r: Receiver)
    ensures Feed(r, Arrived([])) == r
  {
    assert r.Running? ==> r.unread + [] == r.unread;
  }

  /** A run that overfills the buffer ends the connection. */
  lemma {:induction false} OverrunFails(r: Receiver, evs: seq<Event>)
    requires Overruns(r, evs)
    ensures Run(r, evs).Failed? && Drain(Run(r, evs)) == Run(r, evs) && Run(r, evs).error == Protocol
    decreases |evs|
  {
    hide ReadChunk, Step, Drain, DrainBudget, Truncates;
    var r' := Apply(r, evs[0]);
    if Overruns(r', evs[1..]) {
      OverrunFails(r', evs[1..]);
    } else {
      FailedStays(r', evs[1..]);
    }
  }

  /** It leaves a state that draining never reaches. */
  lemma {:induction false} OverrunDiffers(r: Receiver, evs: seq<Event>)
    requires Overruns(r, evs) && !Truncates(r, evs)
    ensures Drain(Run(r, evs)) != Drain(Feed(r, Arrived(evs)))
    decreases |evs|
  {
    hide ReadChunk, Step, Drain, DrainBudget, Cuts, Arrived;
    var r' := Apply(r, evs[0]);
    FirstEvent(r, evs);
    match evs[0]
    case Arrive(data) =>
      if r.Running? && |r.unread| + |data| > MAX_RECV_BUFFER_BYTES {
        FailedStays(r', evs[1..]);
        var whole := Feed(r, Arrived(evs));
        if Drain(whole).Failed? && Drain(whole).error == Protocol {
          ProtocolErrorDelivers(whole);
        }
      } else {
        OverrunDiffers(r', evs[1..]);
      }
    case Poll(budget) =>
      BudgetThenFeed(r, budget, Arrived(evs[1..]));
      OverrunDiffers(r', evs[1..]);
  }

  ghost predicate ValidReceiver(r: Receiver) {
    ValidRegistry(r.reg)
  }

  lemma TurnKeepsValid(r: Receiver, left: Option<nat>)
    requires ValidReceiver(r) && CanStep(r)
    ensures ValidReceiver(Turn(r, left))
  {
    hide ReadChunk, ValidRegistry, ChunkState.SetAllChunkSize, ChunkState.AbortStream, HandedOf;
    var out := ReadChunk(r.reg, r.unread);
    if out.Consumed? {
      ReadKeepsValid(r.reg, r.unread);
      if out.message.Some? {
        var m := out.message.value;
        if ReadSetChunkSize(m.payload).Ok? {
          SetAllChunkSizeKeepsValid(out.reg, ReadSetChunkSize(m.payload).value);
        }
        if ReadAbortMessage(m.payload).Ok? {
          AbortKeepsValid(out.reg, ReadAbortMessage(m.payload).value);
        }
      }
    }
  }

  lemma {:induction false} BudgetKeepsValid(r: Receiver, budget: nat)
    requires ValidReceiver(r)
    ensures ValidReceiver(DrainBudget(r, budget))
    decreases Left(r)
  {
    hide ReadChunk, Turn, ValidRegistry;
    if budget != 0 && CanStep(r) {
      TurnKeepsValid(r, Some(budget));
      var r' := Turn(r, Some(budget));
      BudgetKeepsValid(r', budget - Counted(r, r'));
    }
  }

  /** Over every run the accounting stays exact and all three caps hold, whatever the peer sends. */
  lemma {:induction false} RunKeepsValid(r: Receiver, evs: seq<Event>)
    requires ValidReceiver(r)
    ensures ValidReceiver(Run(r, evs))
    decreases |evs|
  {
    hide DrainBudget, ValidRegistry;
    if evs != [] {
      if evs[0].Poll? {
        BudgetKeepsValid(r, evs[0].budget);
      }
      RunKeepsValid(Apply(r, evs[0]), evs[1..]);
    }
  }

  /** Any message but an aggregate counts at least once, before it is handled; control messages show nothing. */
  lemma CountedFirst(listening: bool, m: Message)
    ensures m.typeId != MSG_AGGREGATE ==> |HandedOf(listening, m, None).units| >= 1
    ensures m.typeId == MSG_SET_CHUNK_SIZE || m.typeId == MSG_ABORT_MESSAGE ==>
              HandedOf(listening, m, None) == Handed([Silent], None)
  {
    hide MediaUnits;
    FrameCounts(listening, m.typeId, m.timestamp, m.payload);
    var data := if m.payload != [] && m.payload[0] == 0 then m.payload[1..] else m.payload;
    FrameCounts(listening, MSG_AMF0_DATA, m.timestamp, data);
  }

  /** What the drain loop does with a complete message while the poll has some left. */
  method HandleMessage(reg: ChunkRegistry, m: Message, listening: bool, processed: nat)
    returns (r: Result<()>, units: seq<Unit>, count: nat)
    requires reg.Valid() && processed < MAX_MESSAGES_PER_POLL
    modifies reg
    ensures reg.Valid()
    ensures var h := HandedOf(listening, m, Some(MAX_MESSAGES_PER_POLL - processed));
            && units == h.units
            && match Handle(old(reg.View()), m) {
                 case Err(e) => r == Err(e) && reg.View() == old(reg.View())
                 case Ok(view) =>
                   && reg.View() == view
                   && (if h.error.Some? then r == Err(h.error.value) else r == Ok(()) && count == processed + |units|)
               }
  {
    hide ChunkRegistry.Valid, ChunkState.SetAllChunkSize, ChunkState.AbortStream, FrameUnits, UnpackedWithin;
    if m.typeId == MSG_AGGREGATE {
      r, units, count := HandleAggregate(listening, m.timestamp, m.payload, processed);
      return;
    }
    CountedFirst(listening, m);
    count := processed + 1;
    if m.typeId == MSG_AMF3_DATA {
      var data := if m.payload != [] && m.payload[0] == 0 then m.payload[1..] else m.payload;
      r, units, count := DeliverFrame(listening, MSG_AMF0_DATA, m.timestamp, data, count);
      return;
    }
    r, units, count := DeliverFrame(listening, m.typeId, m.timestamp, m.payload, count);
    if m.typeId == MSG_SET_CHUNK_SIZE {
      var cs := ReadSetChunkSize(m.payload);
      if cs.Err? {
        return Err(cs.error), units, count;
      }
      reg.SetAllChunkSize(cs.value);
    } else if m.typeId == MSG_ABORT_MESSAGE {
      var csid := ReadAbortMessage(m.payload);
      if csid.Ok? {
        reg.AbortStream(csid.value);
      }
    }
  }

  /** The drain loop itself: it stops on the budget, on a call that made no progress, or on an error. */
  method DrainReadyMessages(reg: ChunkRegistry, buf: Buffer, listening: bool, processed: nat)
    returns (r: Result<()>, messages: seq<Message>, handled: seq<seq<Unit>>)
    requires reg.Valid() && buf.Valid()
    modifies reg, buf
    ensures reg.Valid() && buf.Valid()
    ensures match DrainBudget(Receiving(old(reg.View()), old(buf.Contents()), listening),
                              SatSub(MAX_MESSAGES_PER_POLL, processed))
            case Running(view, unread, ms, hs, _) =>
              && r == Ok(()) && messages == ms && handled == hs
              && reg.View() == view && buf.Contents() == unread
            case Failed(view, ms, hs, e) =>
              r == Err(e) && messages == ms && handled == hs && reg.View() == view
  {
    hide ReadChunk, ChunkRegistry.Valid, Handle, HandedOf;
    var count: nat := processed;
    messages, handled := [], [];
    ghost var start := Receiving(reg.View(), buf.Contents(), listening);
    ghost var goal := DrainBudget(start, SatSub(MAX_MESSAGES_PER_POLL, processed));
    while count < MAX_MESSAGES_PER_POLL
      invariant reg.Valid() && buf.Valid()
      invariant DrainBudget(Running(reg.View(), buf.Contents(), messages, handled, listening),
                            SatSub(MAX_MESSAGES_PER_POLL, count)) == goal
      decreases |buf.Contents()|
    {
      ghost var now := Running(reg.View(), buf.Contents(), messages, handled, listening);
      ghost var left := Some(MAX_MESSAGES_PER_POLL - count);
      var before := buf.Available();
      var out := reg.ChunkRead(buf);
      if out.Err? {
        return Err(BadChunk), messages, handled;
      }
      if out.value.None? {
        if buf.Available() >= before {
          assert !CanStep(now);
          break;
        }
      } else {
        var m := out.value.value;
        var ok, units, counted := HandleMessage(reg, m, listening, count);
        messages, handled := messages + [m], handled + [units];
        if ok.Err? {
          return ok, messages, handled;
        }
        count := counted;
      }
      assert Turn(now, left) == Running(reg.View(), buf.Contents(), messages, handled, listening);
    }
    return Ok(()), messages, handled;
  }
}
