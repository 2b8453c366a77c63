/**
 When the client's staging cap (src/client/mod.rs) can be hit: never by a
 receiver that drains what it reads, and by a peer that sends tiny messages to
 one that polls with the client's budget.
 */
module Staging {
  import opened Bytes
  import opened ChunkWire
  import opened ChunkState
  import opened ChunkReader
  import opened Control
  import opened MediaOut
  import opened FrameDelivery
  import opened Receivers
  import opened Decoding
  import opened Arrival

  // Draining keeps the buffer short

  /** A receiver that waits holds less than a header and a message. */
  lemma WaitingIsShort(reg: Registry, b: bytes)
    requires ReadChunk(reg, b).Waiting?
    ensures |b| < 18 + reg.maxMsgLength
  {
    hide FromBe24, FromBe32, FromLe32, Get, TotalBytes, ActiveCount;
  }

  lemma TurnKeepsLimits(r: Receiver, left: Option<nat>)
    requires CanStep(r)
    ensures var reg := Turn(r, left).reg;
            reg.maxMsgLength == r.reg.maxMsgLength && reg.maxReassemblyBytes == r.reg.maxReassemblyBytes
  {
    hide PlanFor, Advance, Get, HandedOf;
  }

  /** The bytes read of which nothing has been delivered: those staged and those of messages in flight. */
  function Held(r: Receiver): nat {
    TotalBytes(r.reg.streams) + if r.Running? then |r.unread| else 0
  }

  lemma PutTotal(reg: Registry, s: ChunkStream)
    ensures var was := StreamFor(reg, s.csid).partial;
            && |was| <= TotalBytes(reg.streams)
            && TotalBytes(Put(reg, s).streams) == TotalBytes(reg.streams) - |was| + |s.partial|
  {
    match Find(reg.streams, s.csid)
    case Some(i) => TotalUpdate(reg.streams, i, s);
    case None => SumsAppend(reg.streams, s);
  }

  lemma HandleTotal(reg: Registry, m: Message)
    ensures Handle(reg, m).Ok? ==> TotalBytes(Handle(reg, m).value.streams) <= TotalBytes(reg.streams)
  {
    hide Put, Find;
    if m.typeId == MSG_SET_CHUNK_SIZE && Handle(reg, m).Ok? {
      SumsSame(Handle(reg, m).value.streams, reg.streams);
    }
    if m.typeId == MSG_ABORT_MESSAGE && ReadAbortMessage(m.payload).Ok? {
      var csid := ReadAbortMessage(m.payload).value;
      if Get(reg, csid).Some? {
        PutTotal(reg, EmptiedStream(Get(reg, csid).value));
      }
    }
  }

  /** A chunk costs its header, and a message that it completes costs its bytes as well, whenever they arrived. */
  lemma ChunkSpends(reg: Registry, b: bytes)
    requires ReadChunk(reg, b).Consumed?
    ensures var out := ReadChunk(reg, b);
            var paid := if out.message.Some? then |out.message.value.payload| else 0;
            TotalBytes(out.reg.streams) + (|b| - out.wireLen) + 1 + paid <= TotalBytes(reg.streams) + |b|
  {
    BodyOnTheWire(reg, b);
    hide PlanFor, Put, TotalBytes, StreamFor, ApplyHeader;
    var out := ReadChunk(reg, b);
    var s := StreamFor(reg, out.chunk.csid);
    PutTotal(reg, Advance(s, out.chunk).stream);
  }

  /** A turn takes from what is held at least what it counts. */
  lemma TurnSpends(r: Receiver, left: Option<nat>)
    requires CanStep(r)
    ensures var r' := Turn(r, left); r'.Running? ==> Held(r') + Max(1, Counted(r, r')) <= Held(r)
    ensures left.Some? && CutsShort(r, left.value) ==> left.value < Held(r)
  {
    hide ReadChunk, TotalBytes, Handle, Presented, PresentedWithin;
    var out := ReadChunk(r.reg, r.unread);
    if out.Consumed? {
      ChunkSpends(r.reg, r.unread);
      if out.message.Some? {
        var m := out.message.value;
        HandleTotal(out.reg, m);
        MessageCounts(r.listening, m.typeId, m.timestamp, m.payload);
        if left.Some? {
          HandlesPrefix(r.listening, m.typeId, m.timestamp, m.payload, left.value);
        }
      }
    }
  }

  /** A poll that could go on has taken its budget from what was held. */
  lemma {:induction false} BudgetSpends(r: Receiver, budget: nat)
    ensures var r' := DrainBudget(r, budget);
            && r'.reg.maxMsgLength == r.reg.maxMsgLength && r'.reg.maxReassemblyBytes == r.reg.maxReassemblyBytes
            && (r'.Running? ==> r.Running? && |r'.unread| <= |r.unread| && Held(r') <= Held(r))
            && (CanStep(r') ==> Held(r') + budget <= Held(r))
    decreases Left(r)
  {
    hide ReadChunk, Turn, Held;
    if budget != 0 && CanStep(r) {
      TurnKeepsLimits(r, Some(budget));
      TurnSpends(r, Some(budget));
      var r' := Turn(r, Some(budget));
      BudgetSpends(r', budget - Counted(r, r'));
    }
  }

  /** A poll with a budget of all the bytes held cuts no message short. */
  lemma {:induction false} AmplePollNeverCuts(r: Receiver, budget: nat)
    requires budget >= Held(r)
    ensures !Cuts(r, budget)
    decreases Left(r)
  {
    hide ReadChunk, Turn, CutsShort;
    if budget != 0 && CanStep(r) {
      TurnSpends(r, Some(budget));
      var r' := Turn(r, Some(budget));
      if r'.Running? {
        AmplePollNeverCuts(r', budget - Counted(r, r'));
      }
    }
  }

  /** What is known of a receiver without running it: at most so much is staged, at most so much is held. */
  ghost predicate AtMost(r: Receiver, staged: nat, held: nat) {
    ValidReceiver(r) && (r.Running? ==> |r.unread| <= staged && Held(r) <= held)
  }

  /**
   A schedule of reads and polls whose reads fit: after a poll either the
   receiver waits, with at most `short` staged and `most` held, or its budget has
   been taken from what was held. It can be checked from the sizes of the reads
   and the budgets alone.
   */
  predicate Paced(evs: seq<Event>, staged: nat, held: nat, short: nat, most: nat)
    decreases |evs|
  {
    evs == []
    || match evs[0]
       case Arrive(data) =>
         staged + |data| <= MAX_RECV_BUFFER_BYTES && Paced(evs[1..], staged + |data|, held + |data|, short, most)
       case Poll(budget) =>
         Paced(evs[1..], StagedAfter(staged, held, budget, short), HeldAfter(held, budget, most), short, most)
  }

  function StagedAfter(staged: nat, held: nat, budget: nat, short: nat): nat {
    Min(staged, Max(short, SatSub(held, budget)))
  }

  function HeldAfter(held: nat, budget: nat, most: nat): nat {
    Min(held, Max(most, SatSub(held, budget)))
  }

  /** A schedule whose polls have a budget of all that can be held. */
  predicate Ample(evs: seq<Event>, held: nat, most: nat)
    decreases |evs|
  {
    evs == []
    || match evs[0]
       case Arrive(data) => Ample(evs[1..], held + |data|, most)
       case Poll(budget) => budget >= held && Ample(evs[1..], HeldAfter(held, budget, most), most)
  }

  /** The most that a waiting receiver has staged, and the most that it holds. */
  function Short(reg: Registry): nat {
    17 + reg.maxMsgLength
  }

  function Most(reg: Registry): nat {
    Short(reg) + reg.maxReassemblyBytes
  }

  lemma PollLeaves(r: Receiver, budget: nat, staged: nat, held: nat)
    requires AtMost(r, staged, held)
    ensures var r' := DrainBudget(r, budget);
            && AtMost(r', StagedAfter(staged, held, budget, Short(r.reg)), HeldAfter(held, budget, Most(r.reg)))
            && Short(r'.reg) == Short(r.reg) && Most(r'.reg) == Most(r.reg)
  {
    hide ReadChunk, DrainBudget, TotalBytes;
    BudgetKeepsValid(r, budget);
    BudgetSpends(r, budget);
    var r' := DrainBudget(r, budget);
    if r'.Running? && !CanStep(r') {
      WaitingIsShort(r'.reg, r'.unread);
    }
  }

  lemma ArriveLeaves(r: Receiver, data: bytes, staged: nat, held: nat)
    requires AtMost(r, staged, held)
    ensures var r' := Apply(r, Arrive(data));
            AtMost(r', staged + |data|, held + |data|) && Short(r'.reg) == Short(r.reg) && Most(r'.reg) == Most(r.reg)
  {
  }

  /** A paced schedule never overfills the buffer, whatever the bytes are. */
  lemma {:induction false} PacedNeverOverruns(r: Receiver, evs: seq<Event>, staged: nat, held: nat)
    requires AtMost(r, staged, held) && Paced(evs, staged, held, Short(r.reg), Most(r.reg))
    ensures !Overruns(r, evs)
    decreases |evs|
  {
    hide ReadChunk, DrainBudget, StagedAfter, HeldAfter, Short, Most, ValidReceiver;
    if evs != [] {
      var r' := Apply(r, evs[0]);
      match evs[0]
      case Arrive(data) =>
        ArriveLeaves(r, data, staged, held);
        PacedNeverOverruns(r', evs[1..], staged + |data|, held + |data|);
      case Poll(budget) =>
        PollLeaves(r, budget, staged, held);
        PacedNeverOverruns(r', evs[1..], StagedAfter(staged, held, budget, Short(r.reg)), HeldAfter(held, budget, Most(r.reg)));
    }
  }

  /** An ample one never cuts a message short. */
  lemma {:induction false} AmpleNeverTruncates(r: Receiver, evs: seq<Event>, staged: nat, held: nat)
    requires AtMost(r, staged, held) && Ample(evs, held, Most(r.reg))
    ensures !Truncates(r, evs)
    decreases |evs|
  {
    hide ReadChunk, DrainBudget, Cuts, StagedAfter, HeldAfter, Short, Most, ValidReceiver;
    if evs != [] {
      var r' := Apply(r, evs[0]);
      match evs[0]
      case Arrive(data) =>
        ArriveLeaves(r, data, staged, held);
        AmpleNeverTruncates(r', evs[1..], staged + |data|, held + |data|);
      case Poll(budget) =>
        PollLeaves(r, budget, staged, held);
        if r.Running? {
          AmplePollNeverCuts(r, budget);
        } else {
          FailedNeverCuts(r, budget);
        }
        AmpleNeverTruncates(r', evs[1..], StagedAfter(staged, held, budget, Short(r.reg)), HeldAfter(held, budget, Most(r.reg)));
    }
  }

  lemma FailedNeverCuts(r: Receiver, budget: nat)
    requires r.Failed?
    ensures !Cuts(r, budget)
  {
  }

  /** So for schedules that are both fragmentation never matters. */
  lemma PacedRunsAgree(r: Receiver, evs: seq<Event>, staged: nat, held: nat)
    requires AtMost(r, staged, held)
    requires Paced(evs, staged, held, Short(r.reg), Most(r.reg)) && Ample(evs, held, Most(r.reg))
    ensures Drain(Run(r, evs)) == Drain(Feed(r, Arrived(evs)))
  {
    hide Drain, Run, Overruns, Truncates, Paced, Ample;
    PacedNeverOverruns(r, evs, staged, held);
    AmpleNeverTruncates(r, evs, staged, held);
    FragmentationIndependence(r, evs);
  }

  const MAX_READ: nat := 4 * 1024 * 1024

  /** Draining after each read, as a schedule. */
  function DrainEach(pieces: seq<bytes>, budget: nat): seq<Event> {
    if pieces == [] then [] else [Arrive(pieces[0]), Poll(budget)] + DrainEach(pieces[1..], budget)
  }

  /** With reads of up to 4 MiB (the client reads 64 KiB) and the default message length, it is paced and ample. */
  lemma {:induction false} DrainEachIsPaced(pieces: seq<bytes>, budget: nat, staged: nat, held: nat, short: nat, most: nat)
    requires forall i :: 0 <= i < |pieces| ==> |pieces[i]| <= MAX_READ
    requires staged <= short <= 17 + DEFAULT_MAX_MSG_LENGTH && held <= most && MAX_READ + most <= budget
    ensures Paced(DrainEach(pieces, budget), staged, held, short, most) && Ample(DrainEach(pieces, budget), held, most)
    decreases |pieces|
  {
    if pieces != [] {
      var evs := DrainEach(pieces, budget);
      assert evs[1..][1..] == DrainEach(pieces[1..], budget);
      var now, all := staged + |pieces[0]|, held + |pieces[0]|;
      DrainEachIsPaced(pieces[1..], budget, StagedAfter(now, all, budget, short), HeldAfter(all, budget, most), short, most);
      assert evs[1..][0] == Poll(budget);
      assert Paced(evs[1..], now, all, short, most) && Ample(evs[1..], all, most);
    }
  }

  function Joined(pieces: seq<bytes>): bytes {
    if pieces == [] then [] else pieces[0] + Joined(pieces[1..])
  }

  lemma {:induction false} DrainEachArrives(pieces: seq<bytes>, budget: nat)
    ensures Arrived(DrainEach(pieces, budget)) == Joined(pieces)
    decreases |pieces|
  {
    if pieces != [] {
      var evs := DrainEach(pieces, budget);
      assert evs[1..][1..] == DrainEach(pieces[1..], budget);
      DrainEachArrives(pieces[1..], budget);
      assert Arrived(evs[1..]) == [] + Joined(pieces[1..]);
    }
  }

  // A backlog of tiny messages

  /** A chunk stream whose messages are empty, between two of them. */
  function TinyStream(): ChunkStream {
    ChunkStream(3, 128, true, 0, 0, 20, 0, false, 0, 0, [], false, true)
  }

  /** A client registry that knows such a stream. */
  function TinyRegistry(): Registry {
    Registry([TinyStream()], 128, DEFAULT_MAX_MSG_LENGTH, 256, 32 * 1024 * 1024)
  }

  /** Messages of one byte each: fmt 3 chunks on chunk stream 3 that reuse a header of length zero. */
  function Tiny(n: nat): (b: bytes)
    ensures |b| == n
  {
    seq(n, _ => 0xC3)
  }

  const EMPTY: Message := Message(3, 3, 0, 0, 20, 0, [])

  /** A receiver that has been given one more message with nothing in it to show. */
  function Told(r: Receiver, m: Message): Receiver
    requires r.Running?
  {
    Running(r.reg, r.unread, r.delivered + [m], r.handled + [[Silent]], r.listening)
  }

  lemma CommandsAreSilent(listening: bool, m: Message, left: Option<nat>)
    requires m.typeId == 20 && (left.Some? ==> left.value > 0)
    ensures HandedOf(listening, m, left) == Handed([Silent], None)
  {
    assert [Silent][..1] == [Silent];
  }

  lemma TinyStep(n: nat, rest: bytes, r: Receiver, left: Option<nat>)
    requires n > 0 && r.Running? && (left.Some? ==> left.value > 0)
    ensures var now := At(r, TinyRegistry(), Tiny(n) + rest);
            && CanStep(now) && Turn(now, left) == At(Told(r, EMPTY), TinyRegistry(), Tiny(n - 1) + rest)
            && !CutsShort(now, 1)
  {
    CommandsAreSilent(r.listening, EMPTY, left);
    CommandsAreSilent(r.listening, EMPTY, None);
    hide HandedOf;
    var reg, b := TinyRegistry(), Tiny(n) + rest;
    var h := Basic(3, 3, 1);
    assert DecodeBasic(b) == Some(h);
    assert Get(reg, 3) == Some(TinyStream());
    var c := Chunk(3, 3, 0, false, 0, 0, 0, []);
    assert PlanFor(reg, b) == Accept(c, 1);
    assert [] + c.body == c.body;
    assert Advance(TinyStream(), c) == Advanced(TinyStream(), Some(EMPTY));
    assert Put(reg, TinyStream()) == reg;
    assert b[1..] == Tiny(n - 1) + rest;
  }

  function ToldTiny(r: Receiver, n: nat): (r': Receiver)
    requires r.Running?
    ensures r'.Running? && r'.listening == r.listening && |r'.handled| == |r.handled| + n
    decreases n
  {
    if n == 0 then r else ToldTiny(Told(r, EMPTY), n - 1)
  }

  /** A poll takes one byte per message of its budget. */
  lemma {:induction false} TinyPoll(n: nat, rest: bytes, r: Receiver, taken: nat, more: nat)
    requires taken <= n && r.Running?
    ensures var now := At(r, TinyRegistry(), Tiny(n) + rest);
            var later := At(ToldTiny(r, taken), TinyRegistry(), Tiny(n - taken) + rest);
            && DrainBudget(now, taken + more) == DrainBudget(later, more)
            && Cuts(now, taken + more) == Cuts(later, more)
    decreases taken
  {
    hide ReadChunk, Turn, TinyRegistry, Tiny, CutsShort;
    if taken > 0 {
      TinyStep(n, rest, r, Some(taken + more));
      var now := At(r, TinyRegistry(), Tiny(n) + rest);
      if CutsShort(now, taken + more) {
        CutsShortBelow(now, taken + more, 1);
      }
      TinyPoll(n - 1, rest, Told(r, EMPTY), taken - 1, more);
    }
  }

  lemma CutsShortBelow(r: Receiver, left: nat, less: nat)
    requires CanStep(r) && CutsShort(r, left) && less <= left
    ensures CutsShort(r, less)
  {
    hide ReadChunk, HandedOf;
  }

  /** Nothing is wrong with the bytes: a drain takes them all. */
  lemma {:induction false} TinyDrains(n: nat, rest: bytes, r: Receiver)
    requires r.Running?
    ensures Drain(At(r, TinyRegistry(), Tiny(n) + rest)) == Drain(At(ToldTiny(r, n), TinyRegistry(), rest))
    decreases n
  {
    hide ReadChunk, Turn, TinyRegistry;
    if n > 0 {
      TinyStep(n, rest, r, None);
      TinyDrains(n - 1, rest, Told(r, EMPTY));
    } else {
      assert Tiny(0) + rest == rest;
    }
  }

  lemma NoBudget(r: Receiver)
    ensures DrainBudget(r, 0) == r
  {
  }

  lemma NothingWaits(reg: Registry)
    ensures ReadChunk(reg, []).Waiting? && Tiny(0) == []
  {
  }

  const READ: nat := 65536

  /** Rounds of a full read and a poll with the client's budget. */
  function Rounds(k: nat): seq<Event> {
    if k == 0 then [] else [Arrive(Tiny(READ)), Poll(MAX_MESSAGES_PER_POLL)] + Rounds(k - 1)
  }

  /** Each round leaves 65280 more bytes behind, until one does not fit. */
  lemma {:induction false} BacklogOverruns(n: nat, r: Receiver, k: nat)
    requires k > 0 && r.Running? && n + (READ - MAX_MESSAGES_PER_POLL) * (k - 1) + READ > MAX_RECV_BUFFER_BYTES
    ensures Overruns(At(r, TinyRegistry(), Tiny(n)), Rounds(k))
    decreases k
  {
    hide DrainBudget, TinyRegistry, Tiny;
    var now, evs := At(r, TinyRegistry(), Tiny(n)), Rounds(k);
    assert evs[0] == Arrive(Tiny(READ)) && evs[1..][0] == Poll(MAX_MESSAGES_PER_POLL) && evs[1..][1..] == Rounds(k - 1);
    if n + READ <= MAX_RECV_BUFFER_BYTES {
      var fed := Apply(now, evs[0]);
      TinyConcat(n, READ);
      TinyPoll(n + READ, [], r, MAX_MESSAGES_PER_POLL, 0);
      assert Tiny(n + READ) + [] == Tiny(n + READ);
      var left := Tiny(n + READ - MAX_MESSAGES_PER_POLL);
      assert left + [] == left;
      NoBudget(At(ToldTiny(r, MAX_MESSAGES_PER_POLL), TinyRegistry(), left));
      BacklogOverruns(n + READ - MAX_MESSAGES_PER_POLL, ToldTiny(r, MAX_MESSAGES_PER_POLL), k - 1);
    }
  }

  lemma TinyConcat(m: nat, n: nat)
    ensures Tiny(m) + Tiny(n) == Tiny(m + n)
  {
  }

  /** The client's receiver before anything has arrived. */
  function ClientStart(listening: bool): Receiver {
    Receiving(EmptyRegistry(128, DEFAULT_MAX_MSG_LENGTH, 256, 32 * 1024 * 1024), [], listening)
  }

  /** A command of length zero, whose header the tiny messages reuse. */
  function EmptyCommand(): bytes {
    FirstHeader(3, 0, 0, 0, 20, 0)
  }

  lemma CommandStep(rest: bytes, listening: bool, left: Option<nat>)
    requires left.Some? ==> left.value > 0
    ensures var r := Feed(ClientStart(listening), EmptyCommand() + rest);
            && CanStep(r) && !CutsShort(r, 1)
            && Turn(r, left) == At(Told(r, Message(3, 0, 0, 0, 20, 0, [])), TinyRegistry(), rest)
  {
    hide FromBe24, FromBe32, FromLe32, FirstHeader, DecodeBasic, ChunkAt, PlanChunk, StartsWithChunk, HandedOf;
    CommandsAreSilent(listening, Message(3, 0, 0, 0, 20, 0, []), left);
    CommandsAreSilent(listening, Message(3, 0, 0, 0, 20, 0, []), None);
    var reg, b := ClientStart(listening).reg, EmptyCommand() + rest;
    assert [] + b == b && EmptyCommand() + [] + rest == b;
    FirstChunkDecodes(3, 0, 0, 0, 20, 0, [], rest, b);
    assert Quiet(reg, 128);
    ReadFirst(reg, 128, 3, 0, 0, 0, 20, 0, [], b);
    var c := FirstChunk(3, 0, 0, 0, 20, 0, []);
    assert PlanFor(reg, b) == Accept(c, 12);
    assert [] + c.body == c.body && NewStream(3, 128).partial == [];
    assert Advance(NewStream(3, 128), c) == Advanced(TinyStream(), Some(Message(3, 0, 0, 0, 20, 0, [])));
    assert Put(reg, TinyStream()) == TinyRegistry();
    assert b[12..] == rest;
  }

  /** The first read carries the command. */
  function Flood(k: nat): seq<Event> {
    [Arrive(EmptyCommand() + Tiny(READ - 12)), Poll(MAX_MESSAGES_PER_POLL)] + Rounds(k)
  }

  lemma {:induction false} RoundsArrive(k: nat)
    ensures Arrived(Rounds(k)) == Tiny(k * READ)
  {
    hide Tiny;
    if k > 0 {
      var evs := Rounds(k);
      assert evs[0] == Arrive(Tiny(READ)) && evs[1..][0] == Poll(MAX_MESSAGES_PER_POLL) && evs[1..][1..] == Rounds(k - 1);
      RoundsArrive(k - 1);
      assert Arrived(evs[1..]) == [] + Tiny((k - 1) * READ);
      TinyConcat(READ, (k - 1) * READ);
    } else {
      NothingWaits(TinyRegistry());
    }
  }

  /**
   Fragmentation independence fails without its first condition: polled with the
   client's budget of 256 messages, a backlog of one-byte messages ends the
   connection after 9 MiB, although at once the same bytes drain to nothing.
   */
  lemma ClientCanOverrun(listening: bool)
    ensures Overruns(ClientStart(listening), Flood(135))
    ensures Run(ClientStart(listening), Flood(135)).Failed?
    ensures var r := Drain(Feed(ClientStart(listening), Arrived(Flood(135)))); r.Running? && r.unread == []
  {
    hide ReadChunk, Step, Drain, DrainBudget, Tiny, TinyRegistry, EmptyCommand, Rounds;
    var r, evs := ClientStart(listening), Flood(135);
    var first := EmptyCommand() + Tiny(READ - 12);
    CommandLength();
    assert evs[0] == Arrive(first) && evs[1..][0] == Poll(MAX_MESSAGES_PER_POLL) && evs[1..][1..] == Rounds(135);
    var fed := Apply(r, evs[0]);
    assert fed == Feed(r, first);
    CommandsPolled(READ - 12, [], listening, 255, 0);
    assert Tiny(READ - 12) + [] == Tiny(READ - 12);
    var left := Tiny(READ - 12 - 255);
    assert left + [] == left;
    NoBudget(At(ToldTiny(Commanded(listening), 255), TinyRegistry(), left));
    BacklogOverruns(READ - 12 - 255, ToldTiny(Commanded(listening), 255), 135);
    assert Overruns(fed, evs[1..]);
    OverrunFails(r, evs);
    WholeFloodDrains(135, listening);
  }

  lemma CommandLength()
    ensures |EmptyCommand()| == 12
  {
  }

  /** The client once it has the command. */
  function Commanded(listening: bool): (r: Receiver)
    ensures r.Running? && r.listening == listening
  {
    Told(ClientStart(listening), Message(3, 0, 0, 0, 20, 0, []))
  }

  /** A poll takes the command and a tiny message for every other message of its budget. */
  lemma CommandsPolled(n: nat, rest: bytes, listening: bool, taken: nat, more: nat)
    requires taken <= n
    ensures var now := Feed(ClientStart(listening), EmptyCommand() + (Tiny(n) + rest));
            var later := At(ToldTiny(Commanded(listening), taken), TinyRegistry(), Tiny(n - taken) + rest);
            && DrainBudget(now, 1 + taken + more) == DrainBudget(later, more)
            && Cuts(now, 1 + taken + more) == Cuts(later, more)
  {
    hide ReadChunk, Turn, Tiny, TinyRegistry, EmptyCommand, CutsShort;
    var now := Feed(ClientStart(listening), EmptyCommand() + (Tiny(n) + rest));
    CommandStep(Tiny(n) + rest, listening, Some(1 + taken + more));
    if CutsShort(now, 1 + taken + more) {
      CutsShortBelow(now, 1 + taken + more, 1);
    }
    TinyPoll(n, rest, Commanded(listening), taken, more);
  }

  /** A drain takes all of them. */
  lemma CommandsDrained(n: nat, rest: bytes, listening: bool)
    ensures Drain(Feed(ClientStart(listening), EmptyCommand() + (Tiny(n) + rest)))
         == Drain(At(ToldTiny(Commanded(listening), n), TinyRegistry(), rest))
  {
    hide ReadChunk, Turn, Tiny, TinyRegistry, EmptyCommand;
    CommandStep(Tiny(n) + rest, listening, None);
    TinyDrains(n, rest, Commanded(listening));
  }

  lemma WholeFloodDrains(k: nat, listening: bool)
    ensures var r := Drain(Feed(ClientStart(listening), Arrived(Flood(k)))); r.Running? && r.unread == []
  {
    hide ReadChunk, Turn, Tiny, TinyRegistry, EmptyCommand, Rounds;
    var evs := Flood(k);
    var n := READ - 12 + k * READ;
    assert evs[0] == Arrive(EmptyCommand() + Tiny(READ - 12)) && evs[1..][0] == Poll(MAX_MESSAGES_PER_POLL);
    assert evs[1..][1..] == Rounds(k);
    RoundsArrive(k);
    TinyConcat(READ - 12, k * READ);
    assert Arrived(evs[1..]) == [] + Tiny(k * READ);
    assert (EmptyCommand() + Tiny(READ - 12)) + Tiny(k * READ) == EmptyCommand() + (Tiny(READ - 12) + Tiny(k * READ));
    assert Arrived(evs) == EmptyCommand() + Tiny(n);
    assert Tiny(n) + [] == Tiny(n);
    CommandsDrained(n, [], listening);
    NothingWaits(TinyRegistry());
  }

  // A message cut short

  const TAG: Part := Part(MSG_AUDIO, 0, [0])

  /** An aggregate of two audio tags of one byte and a tag of none. */
  function CutPayload(): bytes {
    EncodePart(TAG) + (EncodePart(TAG) + EncodeHeader(Part(MSG_AUDIO, 0, [])))
  }

  lemma TagCountsOnce(listening: bool, ts: u32)
    ensures |FrameUnits(listening, MSG_AUDIO, ts, [0]).units| == 1 && FrameUnits(listening, MSG_AUDIO, ts, [0]).error == None
  {
  }

  /** It holds two units and an error behind them, which one unit left does not reach. */
  lemma CutPayloadUnits(listening: bool)
    ensures var all := Presented(listening, MSG_AGGREGATE, 0, CutPayload());
            |all.units| == 2 && all.error == Some(Protocol)
    ensures var cut := PresentedWithin(listening, MSG_AGGREGATE, 0, CutPayload(), 1);
            |cut.units| == 1 && cut.error == None
  {
    hide FrameUnits, EncodePart, EncodeHeader, FromBe24;
    var p, none := CutPayload(), Part(MSG_AUDIO, 0, []);
    var one, two := EncodePart(TAG), EncodePart(TAG) + EncodePart(TAG);
    assert p == [] + one + (one + EncodeHeader(none)) == one + one + EncodeHeader(none) == two + EncodeHeader(none) + [];
    ReadsEncoded([], TAG, one + EncodeHeader(none));
    ReadsEncoded(one, TAG, EncodeHeader(none));
    HeaderReads(two, none, []);
    TagCountsOnce(listening, 0);
    assert [] + one == one;
    assert ReadSubTag(p, 0) == Ok(SubTag(MSG_AUDIO, 0, [0], 16));
    assert ReadSubTag(p, 16) == Ok(SubTag(MSG_AUDIO, 0, [0], 32));
    assert ReadSubTag(p, 32).Err?;
    hide ReadSubTag;
    assert Rebased(0, 0, 0) == 0;
    assert |Unpacked(listening, 0, p, 16, 1, Some(0)).units| == 1;
  }

  function CutWire(): bytes {
    FirstHeader(4, 0, 0, |CutPayload()|, MSG_AGGREGATE, 0) + CutPayload()
  }

  /** The message that arrives. */
  function CutMessage(): Message {
    Message(4, 0, 0, |CutPayload()|, MSG_AGGREGATE, 0, CutPayload())
  }

  function AfterCut(): Registry {
    Put(TinyRegistry(), StreamAfter(TinyRegistry(), 4, 0, 0, |CutPayload()|, MSG_AGGREGATE, 0))
  }

  lemma CutArrives(r: Receiver, left: Option<nat>, n: nat)
    requires r.Running?
    ensures var now := At(r, TinyRegistry(), CutWire());
            && CanStep(now)
            && CutsShort(now, n) == (n < |HandedOf(r.listening, CutMessage(), None).units|)
            && Turn(now, left) == Deliver(r, AfterCut(), CutMessage(), HandedOf(r.listening, CutMessage(), left), [])
  {
    hide FromBe24, FromBe32, FromLe32, FirstHeader, DecodeBasic, ChunkAt, PlanChunk, StartsWithChunk, HandedOf, CutPayload,
      Put, Find, Handle;
    var reg, b, p := TinyRegistry(), CutWire(), CutPayload();
    CutPayloadLength();
    assert b == FirstHeader(4, 0, 0, |p|, MSG_AGGREGATE, 0) + p + [];
    FirstChunkDecodes(4, 0, 0, |p|, MSG_AGGREGATE, 0, p, [], b);
    TinyIsQuiet();
    ReadFirst(reg, 128, 4, 0, 0, |p|, MSG_AGGREGATE, 0, p, b);
    AdvanceFirst(reg, 128, 4, 0, 0, |p|, MSG_AGGREGATE, 0, p);
    assert b[12 + |p|..] == [];
  }

  lemma CutPayloadLength()
    ensures |CutPayload()| == 43
  {
    hide EncodePart, EncodeHeader;
  }

  lemma TinyIsQuiet()
    ensures Quiet(TinyRegistry(), 128) && Get(TinyRegistry(), 4) == None
  {
    assert TinyRegistry().streams[..0] == [];
  }

  /** What is left of an aggregate by a poll that has one message left, and by one that has two. */
  lemma CutTurns(r: Receiver)
    requires r.Running?
    ensures var now := At(r, TinyRegistry(), CutWire());
            && Cuts(now, 1)
            && DrainBudget(now, 1).Running? && DrainBudget(now, 1).unread == []
            && DrainBudget(now, MAX_MESSAGES_PER_POLL) == Drain(now)
            && Drain(now).Failed? && Drain(now).error == Protocol
  {
    hide ReadChunk, Turn, Presented, PresentedWithin, CutWire, CutPayload, TinyRegistry, AfterCut, CutsShort;
    CutArrives(r, Some(1), 1);
    CutArrives(r, None, MAX_MESSAGES_PER_POLL);
    CutPayloadUnits(r.listening);
    var now := At(r, TinyRegistry(), CutWire());
    assert Turn(now, Some(1)).Running?;
    assert Turn(now, None).Failed? && Turn(now, None).error == Protocol;
    TurnWithin(now, MAX_MESSAGES_PER_POLL);
  }

  /** 255 commands of length zero. */
  function Commands(): bytes {
    EmptyCommand() + Tiny(254)
  }

  /**
   It fails without its second condition too. After 255 commands, an aggregate of
   two audio tags and a malformed one, polled with the client's budget of 256: if
   all are there at the first poll, the second tag is lost and the connection goes
   on; if the aggregate comes after that poll, both tags are handled and the
   malformed one ends the connection, as it does at once.
   */
  lemma ClientCanTruncate(listening: bool)
    ensures var r, poll := ClientStart(listening), Poll(MAX_MESSAGES_PER_POLL);
            var together, apart := [Arrive(Commands() + CutWire()), poll], [Arrive(Commands()), poll, Arrive(CutWire()), poll];
            && Truncates(r, together) && Run(r, together).Running? && Run(r, together).unread == []
            && Run(r, apart) == Drain(Feed(r, Commands() + CutWire()))
            && Run(r, apart).Failed? && Run(r, apart).error == Protocol
  {
    hide ReadChunk, DrainBudget, Drain, Tiny, TinyRegistry, EmptyCommand, CutWire, Cuts, ToldTiny;
    var r, poll := ClientStart(listening), Poll(MAX_MESSAGES_PER_POLL);
    CommandLength();
    CutLength();
    var wire, told := CutWire(), ToldTiny(Commanded(listening), 254);
    NothingWaits(TinyRegistry());
    assert Commands() + wire == EmptyCommand() + (Tiny(254) + wire);
    assert Commands() == EmptyCommand() + (Tiny(254) + []);
    assert Tiny(0) + wire == wire && Tiny(0) + [] == [];
    CommandsPolled(254, wire, listening, 254, 1);
    CommandsPolled(254, [], listening, 254, 1);
    CommandsDrained(254, wire, listening);
    CutTurns(told);
    NothingToPoll(told);
    var together, apart := [Arrive(Commands() + wire), poll], [Arrive(Commands()), poll, Arrive(wire), poll];
    RunTwo(r, together);
    RunTwo(r, apart);
    assert Apply(Apply(r, apart[0]), apart[1]) == At(told, TinyRegistry(), []);
    assert [] + wire == wire && apart[2..] == [Arrive(wire), poll] && together[2..] == [];
    RunTwo(At(told, TinyRegistry(), []), [Arrive(wire), poll]);
  }

  lemma NothingToPoll(r: Receiver)
    requires r.Running?
    ensures DrainBudget(At(r, TinyRegistry(), []), 1) == At(r, TinyRegistry(), [])
  {
    NothingWaits(TinyRegistry());
  }

  lemma CutLength()
    ensures |CutWire()| == 55
  {
    CutPayloadLength();
  }

  lemma RunTwo(r: Receiver, evs: seq<Event>)
    requires |evs| >= 2
    ensures Run(r, evs) == Run(Apply(Apply(r, evs[0]), evs[1]), evs[2..])
    ensures evs[1].Poll? && Cuts(Apply(r, evs[0]), evs[1].budget) ==> Truncates(r, evs)
  {
    assert evs[1..][0] == evs[1] && evs[1..][1..] == evs[2..];
  }
}
