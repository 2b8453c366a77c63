/**
 The client's window acknowledgements (section 5.4.3 of the RTMP specification,
 src/client/mod.rs): what is counted, when an acknowledgement is queued, and how
 the one that is queued is tracked while the outbound buffer drains under it.
 */
module WindowAck {
  import opened Bytes
  import opened Buffers
  import opened ChunkWire
  import opened ChunkWriter
  import opened Control

  /** The acknowledgement bookkeeping; `queue` is the unsent part of the outbound buffer. */
  datatype Acker = Acker(
    window: u32,
    received: u64,
    atLastAck: u64,
    remaining: Option<nat>,
    queue: bytes,
    chunkSize: nat)

  const INITIAL := Acker(0, 0, 0, None, [], DEFAULT_CHUNK_SIZE)

  /** An acknowledgement carries the low 32 bits of the count. */
  function AckWire(received: u64, chunkSize: nat): bytes {
    MessageWire(2, 0, MSG_ACKNOWLEDGEMENT, 0, Be32(received % U32_MODULUS), EffectiveChunkSize(chunkSize))
  }

  predicate Due(a: Acker) {
    a.remaining.None? && a.window > 0 && SatSub(a.received, a.atLastAck) >= a.window
  }

  predicate Fits(a: Acker, b: bytes) {
    |a.queue| + |b| <= BUFFER_MAX_SIZE
  }

  predicate Queues(a: Acker) {
    Due(a) && Fits(a, AckWire(a.received, a.chunkSize))
  }

  /** Queues an acknowledgement when one is due; a full buffer changes nothing. */
  function Checked(a: Acker): Acker {
    if Queues(a) then
      var queue := a.queue + AckWire(a.received, a.chunkSize);
      a.(queue := queue, atLastAck := a.received, remaining := Some(|queue|))
    else a
  }

  /** What is left before the acknowledgement's last byte leaves, after `n` bytes left. */
  function Retired(remaining: Option<nat>, n: nat): Option<nat> {
    match remaining
    case None => None
    case Some(r) => if r <= n then None else Some(r - n)
  }

  function Left(a: Acker, n: nat): Acker {
    a.(queue := a.queue[Min(n, |a.queue|)..], remaining := Retired(a.remaining, Min(n, |a.queue|)))
  }

  datatype Event =
    | Receive(n: nat)          // bytes arrive from the peer
    | Learn(payload: bytes)    // a WindowAckSize message
    | Check                    // maybe_send_window_ack
    | Append(b: bytes)         // any other outbound message is queued
    | Leave(n: nat)            // the socket takes up to n bytes
    | LeaveAll                 // the whole buffer goes out and is reset
    | Rechunk(chunkSize: nat)  // the outbound chunk size changes

  function Apply(a: Acker, e: Event): Acker {
    match e
    case Receive(n) => a.(received := Min(a.received + n, U64_MAX))
    case Learn(payload) =>
      (match ReadWindowAckSize(payload)
       case Ok(w) => a.(window := w)
       case Err(_) => a)
    case Check => Checked(a)
    case Append(b) => if Fits(a, b) then a.(queue := a.queue + b) else a
    case Leave(n) => Left(a, n)
    case LeaveAll => a.(queue := [], remaining := None)
    case Rechunk(cs) => a.(chunkSize := cs)
  }

  // Runs, with what has been sent and every acknowledgement queued so far

  /** An acknowledgement: what it reports, the window it answers, and where it lies in the outbound stream. */
  datatype Ack = Ack(at: u64, window: u32, chunkSize: nat, start: nat, end: nat)

  datatype Trace = Trace(acker: Acker, sent: bytes, acks: seq<Ack>)

  function Sent(a: Acker, e: Event): bytes {
    match e
    case Leave(n) => a.queue[..Min(n, |a.queue|)]
    case LeaveAll => a.queue
    case _ => []
  }

  function NewAcks(t: Trace, e: Event): seq<Ack> {
    var a := t.acker;
    if e.Check? && Queues(a) then
      var start := |t.sent| + |a.queue|;
      [Ack(a.received, a.window, a.chunkSize, start, start + |AckWire(a.received, a.chunkSize)|)]
    else []
  }

  function Advance(t: Trace, e: Event): Trace {
    Trace(Apply(t.acker, e), t.sent + Sent(t.acker, e), t.acks + NewAcks(t, e))
  }

  function Run(t: Trace, events: seq<Event>): Trace
    decreases |events|
  {
    if events == [] then t else Run(Advance(t, events[0]), events[1..])
  }

  /** Everything handed to the peer or still waiting to be. */
  function Outbound(t: Trace): bytes {
    t.sent + t.acker.queue
  }

  // The invariant, one aspect at a time

  predicate WindowOk(w: u32) {
    w == 0 || MIN_WINDOW_ACK_SIZE <= w
  }

  /** The counter reported last; zero before the first acknowledgement. */
  function LastAt(acks: seq<Ack>): u64 {
    if acks == [] then 0 else acks[|acks| - 1].at
  }

  /** Each acknowledgement reports at least its window more than the one before. */
  predicate Spaced(acks: seq<Ack>) {
    forall i :: 0 <= i < |acks| ==>
      acks[i].at - LastAt(acks[..i]) >= acks[i].window >= MIN_WINDOW_ACK_SIZE
  }

  predicate CountsOk(t: Trace) {
    && WindowOk(t.acker.window)
    && t.acker.atLastAck == LastAt(t.acks) <= t.acker.received
    && Spaced(t.acks)
  }

  /** An acknowledgement some of whose bytes have not left yet. */
  predicate Unsent(t: Trace, i: nat)
    requires i < |t.acks|
  {
    t.acks[i].end > |t.sent|
  }

  /** `remaining` measures the distance to the end of the newest acknowledgement, and older ones have left. */
  predicate TrackOk(t: Trace) {
    && (forall i :: 0 <= i < |t.acks| - 1 ==> !Unsent(t, i))
    && match t.acker.remaining
       case None => t.acks != [] ==> !Unsent(t, |t.acks| - 1)
       case Some(r) => 0 < r <= |t.acker.queue| && t.acks != [] && t.acks[|t.acks| - 1].end == |t.sent| + r
  }

  /** Where an acknowledgement is said to lie, its bytes are there. */
  predicate PlacedAt(outbound: bytes, ack: Ack) {
    && ack.start <= ack.end <= |outbound|
    && outbound[ack.start..ack.end] == AckWire(ack.at, ack.chunkSize)
  }

  predicate PlacesOk(t: Trace) {
    forall i :: 0 <= i < |t.acks| ==> PlacedAt(Outbound(t), t.acks[i])
  }

  lemma AckWireNotEmpty(received: u64, chunkSize: nat)
    ensures AckWire(received, chunkSize) != []
  {
    var payload := Be32(received % U32_MODULUS);
    assert |FirstHeader(2, 0, 0, |payload|, MSG_ACKNOWLEDGEMENT, 0)| > 0;
  }

  lemma AdvanceKeepsCounts(t: Trace, e: Event)
    requires CountsOk(t)
    ensures CountsOk(Advance(t, e))
  {
    hide AckWire, Spaced;
    var t' := Advance(t, e);
    if NewAcks(t, e) == [] {
      assert t'.acks == t.acks;
    } else {
      SpacedAppend(t.acks, NewAcks(t, e)[0]);
    }
  }

  lemma SpacedAppend(acks: seq<Ack>, ack: Ack)
    requires Spaced(acks) && ack.at - LastAt(acks) >= ack.window >= MIN_WINDOW_ACK_SIZE
    ensures Spaced(acks + [ack])
  {
    var all := acks + [ack];
    forall i | 0 <= i < |all|
      ensures all[i].at - LastAt(all[..i]) >= all[i].window >= MIN_WINDOW_ACK_SIZE
    {
      assert all[..i] == acks[..i];
      assert acks[..|acks|] == acks;
    }
  }

  lemma AdvanceKeepsTrack(t: Trace, e: Event)
    requires TrackOk(t)
    ensures TrackOk(Advance(t, e))
  {
    hide AckWire;
    AckWireNotEmpty(t.acker.received, t.acker.chunkSize);
    var t' := Advance(t, e);
    assert t.acks <= t'.acks && |t.sent| <= |t'.sent|;
    assert forall i :: 0 <= i < |t.acks| && Unsent(t', i) ==> Unsent(t, i);
    if NewAcks(t, e) == [] {
      assert t'.acks == t.acks;
    }
  }

  /** Whatever happens, the outbound stream only grows at its end. */
  lemma OutboundGrows(t: Trace, e: Event)
    ensures Outbound(t) <= Outbound(Advance(t, e))
    ensures e.Check? && Queues(t.acker) ==>
              Outbound(Advance(t, e)) == Outbound(t) + AckWire(t.acker.received, t.acker.chunkSize)
  {
    hide AckWire;
    var a := t.acker;
    match e
    case Leave(n) =>
      var k := Min(n, |a.queue|);
      assert t.sent + a.queue == (t.sent + a.queue[..k]) + a.queue[k..];
    case LeaveAll =>
    case Append(b) =>
    case Check =>
      if Queues(a) {
        var wire := AckWire(a.received, a.chunkSize);
        assert (t.sent + []) + (a.queue + wire) == (t.sent + a.queue) + wire;
      }
    case _ =>
  }

  lemma AdvanceKeepsPlaces(t: Trace, e: Event)
    requires PlacesOk(t)
    ensures PlacesOk(Advance(t, e))
  {
    hide AckWire, Apply;
    OutboundGrows(t, e);
    var was, t', now := Outbound(t), Advance(t, e), Outbound(Advance(t, e));
    forall i | 0 <= i < |t'.acks| ensures PlacedAt(now, t'.acks[i]) {
      if i < |t.acks| {
        assert PlacedAt(was, t.acks[i]);
        assert now[..|was|] == was;
        assert now[t.acks[i].start..t.acks[i].end] == was[t.acks[i].start..t.acks[i].end];
      }
    }
  }

  ghost predicate Inv(t: Trace) {
    CountsOk(t) && TrackOk(t) && PlacesOk(t)
  }

  const START := Trace(INITIAL, [], [])

  lemma StartInv()
    ensures Inv(START)
  {
  }

  lemma {:induction false} RunKeepsInv(t: Trace, events: seq<Event>)
    requires Inv(t)
    ensures Inv(Run(t, events))
    decreases |events|
  {
    if events != [] {
      AdvanceKeepsCounts(t, events[0]);
      AdvanceKeepsTrack(t, events[0]);
      AdvanceKeepsPlaces(t, events[0]);
      RunKeepsInv(Advance(t, events[0]), events[1..]);
    }
  }

  /**
   After any run: at most one acknowledgement is unsent, the tracked distance is
   exactly the number of bytes before its end, and none is tracked if and only
   if none is unsent.
   */
  lemma AtMostOneUnsent(events: seq<Event>)
    ensures var t := Run(START, events);
            match t.acker.remaining
            case None => forall i :: 0 <= i < |t.acks| ==> !Unsent(t, i)
            case Some(r) =>
              && t.acks != [] && 0 < r && t.acks[|t.acks| - 1].end == |t.sent| + r
              && forall i :: 0 <= i < |t.acks| ==> (Unsent(t, i) <==> i == |t.acks| - 1)
    ensures var t := Run(START, events);
            forall i :: 0 <= i < |t.acks| ==> PlacedAt(Outbound(t), t.acks[i])
  {
    hide Run;
    StartInv();
    RunKeepsInv(START, events);
  }

  /** What `Check` does to a trace: it queues an acknowledgement exactly when one is owed and can be. */
  ghost predicate AnswersCrossing(t: Trace) {
    var a := t.acker;
    var owed := 0 < a.window <= a.received - LastAt(t.acks);
    var fits := Fits(a, AckWire(a.received, a.chunkSize));
    var t' := Advance(t, Check);
    && (t'.acks != t.acks <==> (forall i :: 0 <= i < |t.acks| ==> !Unsent(t, i)) && owed && fits)
    && (t'.acker.remaining.None? ==> !owed || !fits)
  }

  /** No crossing is suppressed by an acknowledgement that has left. */
  lemma NoCrossingSuppressed(events: seq<Event>)
    ensures AnswersCrossing(Run(START, events))
  {
    hide Run, PlacesOk, AckWire;
    StartInv();
    RunKeepsInv(START, events);
    CrossingAnswered(Run(START, events));
  }

  lemma CrossingAnswered(t: Trace)
    requires CountsOk(t) && TrackOk(t)
    ensures AnswersCrossing(t)
  {
    hide AckWire, Spaced;
    assert (t.acks + NewAcks(t, Check) != t.acks) <==> NewAcks(t, Check) != [];
    if t.acker.remaining.Some? {
      assert Unsent(t, |t.acks| - 1);
    }
  }

  /** Reports are at least 1024 bytes apart however the 32-bit number on the wire wraps. */
  lemma {:induction false} ReportsAreSpaced(acks: seq<Ack>, i: nat, j: nat)
    requires Spaced(acks) && i < j < |acks|
    ensures acks[j].at - acks[i].at >= MIN_WINDOW_ACK_SIZE * (j - i)
    decreases j
  {
    if i + 1 < j {
      ReportsAreSpaced(acks, i, j - 1);
    }
    assert acks[..j][|acks[..j]| - 1] == acks[j - 1];
    assert acks[j].at - LastAt(acks[..j]) >= acks[j].window;
  }

  /** Subtracting two numbers from the wire modulo 2^32 gives the distance modulo 2^32. */
  lemma WireDifference(later: u64, earlier: u64)
    requires earlier <= later
    ensures (later % U32_MODULUS - earlier % U32_MODULUS) % U32_MODULUS == (later - earlier) % U32_MODULUS
  {
    var q := later / U32_MODULUS - earlier / U32_MODULUS;
    var d := later % U32_MODULUS - earlier % U32_MODULUS;
    assert later - earlier == q * U32_MODULUS + d;
    assert (q * U32_MODULUS + d) % U32_MODULUS == d % U32_MODULUS;
  }

  /** So a peer is never sent more than one acknowledgement per 1024 bytes it sends. */
  lemma AcksAreRare(events: seq<Event>)
    ensures var t := Run(START, events);
            && Spaced(t.acks)
            && MIN_WINDOW_ACK_SIZE * |t.acks| <= t.acker.received
  {
    RunKeepsInv(START, events);
    var t := Run(START, events);
    if t.acks != [] {
      assert t.acks[0].at - LastAt(t.acks[..0]) >= t.acks[0].window;
      if |t.acks| > 1 {
        ReportsAreSpaced(t.acks, 0, |t.acks| - 1);
      }
    }
  }

  // The client's fields and methods

  /** What the socket answers to a non-blocking send. */
  datatype Answer = Took(n: nat) | WouldBlock | Failed

  /** The acknowledgement state after the socket has answered until it stops taking bytes. */
  function Flushed(a: Acker, answers: seq<Answer>): Acker
    decreases |answers|
  {
    if a.queue == [] then a.(remaining := None)
    else if answers == [] || !answers[0].Took? || answers[0].n == 0 then a
    else Flushed(Left(a, answers[0].n), answers[1..])
  }

  /** The socket reports an error before it stops taking bytes. */
  predicate FlushFails(a: Acker, answers: seq<Answer>)
    decreases |answers|
  {
    a.queue != [] && answers != []
    && (answers[0].Failed?
        || (answers[0].Took? && answers[0].n > 0 && FlushFails(Left(a, answers[0].n), answers[1..])))
  }

  /** What a blocking flush has to send with: nothing, a send without deadline that works or not, or one with a deadline. */
  datatype Transport = Missing | Blocking(works: bool) | Bounded(answers: seq<Answer>)

  class Client {
    var windowAckSize: u32
    var bytesReceived: u64
    var bytesAtLastAck: u64
    var ackBytesRemaining: Option<nat>
    var outChunkSize: nat
    const sendBuffer: Buffer

    ghost predicate BufferOk()
      reads this, sendBuffer
    {
      sendBuffer.Valid() && sendBuffer.Limit() == BUFFER_MAX_SIZE && sendBuffer.owned
    }

    /** A tracked acknowledgement ends inside the queue. */
    ghost predicate Valid()
      reads this, sendBuffer
    {
      BufferOk() && (ackBytesRemaining.Some? ==> 0 < ackBytesRemaining.value <= |sendBuffer.Contents()|)
    }

    ghost function View(): Acker
      requires BufferOk()
      reads this, sendBuffer
    {
      Acker(windowAckSize, bytesReceived, bytesAtLastAck, ackBytesRemaining, sendBuffer.Contents(), outChunkSize)
    }

    constructor ()
      ensures Valid() && fresh(sendBuffer) && View() == INITIAL
    {
      windowAckSize, bytesReceived, bytesAtLastAck, ackBytesRemaining := 0, 0, 0, None;
      outChunkSize := DEFAULT_CHUNK_SIZE;
      sendBuffer := new Buffer();
    }

    method CountReceived(n: nat)
      requires Valid()
      modifies this`bytesReceived
      ensures Valid() && View() == Apply(old(View()), Receive(n))
    {
      bytesReceived := if bytesReceived + n > U64_MAX then U64_MAX else bytesReceived + n;
    }

    method QueueControlMessage(msgTypeId: byte, payload: bytes) returns (r: Result<()>)
      requires Valid()
      modifies sendBuffer
      ensures Valid()
      ensures var wire := MessageWire(2, 0, msgTypeId, 0, payload, EffectiveChunkSize(outChunkSize));
              && (r.Ok? <==> |payload| <= RTMP_WIRE_MAX_MSG_LENGTH && Fits(old(View()), wire))
              && View() == if r.Ok? then Apply(old(View()), Append(wire)) else old(View())
    {
      if |payload| >= U32_MODULUS {
        // The announced length is the low 32 bits, which no longer match.
        return Err(Internal);
      }
      assert payload[..|payload|] == payload;
      r := ChunkWrite(sendBuffer, OutMessage(2, 0, 0, |payload|, msgTypeId, 0), payload, |payload|, outChunkSize);
    }

    /** Queues an acknowledgement when one is due and none is waiting. */
    method MaybeSendWindowAck() returns (r: Result<()>)
      requires Valid()
      modifies this`bytesAtLastAck, this`ackBytesRemaining, sendBuffer
      ensures Valid() && View() == Apply(old(View()), Check)
      ensures r.Ok? <==> !Due(old(View())) || Queues(old(View()))
    {
      hide FirstHeader, ChunkBody, Be32;
      if ackBytesRemaining.Some? {
        return Ok(());
      }
      if windowAckSize > 0 && SatSub(bytesReceived, bytesAtLastAck) >= windowAckSize {
        r := QueueControlMessage(MSG_ACKNOWLEDGEMENT, Be32(bytesReceived % U32_MODULUS));
        if r.Err? {
          return;
        }
        bytesAtLastAck := bytesReceived;
        ackBytesRemaining := Some(sendBuffer.Available());
      }
      return Ok(());
    }

    /** A WindowAckSize message that arrives while a command is awaited is acted on at once. */
    method LearnWindowAndCheck(payload: bytes) returns (r: Result<()>)
      requires Valid()
      modifies this`windowAckSize, this`bytesAtLastAck, this`ackBytesRemaining, sendBuffer
      ensures Valid()
      ensures var learned := Apply(old(View()), Learn(payload));
              && View() == (if ReadWindowAckSize(payload).Ok? then Apply(learned, Check) else learned)
              && (r.Err? <==> ReadWindowAckSize(payload).Ok? && Due(learned) && !Queues(learned))
    {
      hide AckWire, Checked, Left, ReadWindowAckSize;
      var window := ReadWindowAckSize(payload);
      if window.Ok? {
        windowAckSize := window.value;
        r := MaybeSendWindowAck();
      } else {
        r := Ok(());
      }
    }

    method NoteOutboundDrained(n: nat)
      modifies this`ackBytesRemaining
      ensures ackBytesRemaining == Retired(old(ackBytesRemaining), n)
    {
      if ackBytesRemaining.Some? {
        var remaining := SatSub(ackBytesRemaining.value, n);
        ackBytesRemaining := if remaining == 0 then None else Some(remaining);
      }
    }

    /** The socket has taken `n` bytes. */
    method Departs(n: nat)
      requires Valid() && n <= |sendBuffer.Contents()|
      modifies this`ackBytesRemaining, sendBuffer
      ensures Valid() && View() == Left(old(View()), n)
      ensures sendBuffer.Contents() == old(sendBuffer.Contents())[n..]
    {
      sendBuffer.Drain(n);
      NoteOutboundDrained(n);
    }

    /**
     Offers the queued bytes until the socket stops taking them; never blocks.
     `taken` is what the socket took: nothing is skipped and nothing repeated.
     */
    method TryFlushSendBuffer(answers: seq<Answer>) returns (r: Result<()>, taken: bytes)
      requires Valid()
      modifies this`ackBytesRemaining, sendBuffer
      ensures Valid() && View() == Flushed(old(View()), answers)
      ensures taken + sendBuffer.Contents() == old(sendBuffer.Contents())
      ensures r == if FlushFails(old(View()), answers) then Err(Io) else Ok(())
    {
      hide Flushed, FlushFails, Left;
      var i := 0;
      taken := [];
      assert answers[0..] == answers;
      while sendBuffer.Available() > 0
        invariant Valid() && 0 <= i <= |answers|
        invariant Flushed(View(), answers[i..]) == Flushed(old(View()), answers)
        invariant FlushFails(View(), answers[i..]) == FlushFails(old(View()), answers)
        invariant taken + sendBuffer.Contents() == old(sendBuffer.Contents())
        decreases |answers| - i
      {
        ghost var before := View();
        FlushedStep(before, answers, i);
        if i == |answers| || answers[i].WouldBlock? {
          break;
        }
        if answers[i].Failed? {
          return Err(Io), taken;
        }
        var n := Min(answers[i].n, sendBuffer.Available());
        if n == 0 {
          break;
        }
        TakeMore(taken, sendBuffer.Contents(), n);
        taken := taken + sendBuffer.Contents()[..n];
        Departs(n);
        i := i + 1;
      }
      if sendBuffer.Available() == 0 {
        FlushedEmpty(View(), answers[i..]);
        sendBuffer.Reset();
        ackBytesRemaining := None;
      }
      return Ok(()), taken;
    }

    /**
     Sends everything or stops at the deadline, which the end of `answers`
     stands for. A failed send leaves only the untransmitted tail queued, with
     the acknowledgement still tracked in it, so a retry resumes where it stopped.
     */
    method SendBounded(answers: seq<Answer>) returns (r: Result<()>, taken: bytes)
      requires Valid()
      modifies this`ackBytesRemaining, sendBuffer
      ensures Valid() && Partway(old(View()), View(), taken)
      ensures r.Ok? <==> sendBuffer.Contents() == []
    {
      hide Left, Retired;
      var i := 0;
      taken := [];
      LeftNothing(View());
      assert View().queue == [] + View().queue;
      ghost var start := View();
      assert Partway(start, View(), taken);
      hide Partway;
      while sendBuffer.Available() > 0
        invariant Valid() && 0 <= i <= |answers|
        invariant Partway(start, View(), taken)
        decreases |answers| - i
      {
        if i == |answers| {
          return Err(Timeout), taken;
        }
        if answers[i].Failed? {
          return Err(Io), taken;
        }
        if answers[i].Took? {
          var n := Min(answers[i].n, sendBuffer.Available());
          PartwayOn(start, View(), taken, n);
          taken := taken + sendBuffer.Contents()[..n];
          Departs(n);
        }
        i := i + 1;
      }
      return Ok(()), taken;
    }

    /**
     Flushes before blocking on more input. Without a transport the queue is
     dropped; a send without deadline works whole or leaves the queue as it was.
     */
    method FlushPendingOutbound(transport: Transport) returns (r: Result<()>, taken: bytes)
      requires Valid()
      modifies this`ackBytesRemaining, sendBuffer
      ensures Valid()
      ensures if transport.Missing? then taken == [] else taken + sendBuffer.Contents() == old(sendBuffer.Contents())
      ensures View() == if r.Ok? then Apply(old(View()), LeaveAll) else Left(old(View()), |taken|)
      ensures r.Ok? <==> sendBuffer.Contents() == []
      ensures transport.Blocking? && old(sendBuffer.Contents()) != [] ==> r.Ok? == transport.works
    {
      if sendBuffer.Available() == 0 {
        return Ok(()), [];
      }
      match transport {
        case Missing =>
          taken := [];
        case Blocking(works) =>
          if !works {
            LeftNothing(View());
            return Err(Io), [];
          }
          taken := sendBuffer.Contents();
        case Bounded(answers) =>
          r, taken := SendBounded(answers);
          if r.Err? {
            return;
          }
      }
      sendBuffer.Reset();
      ackBytesRemaining := None;
      return Ok(()), taken;
    }
  }

  /** `taken` has gone out since `start`, no more and no less. */
  ghost predicate Partway(start: Acker, now: Acker, taken: bytes) {
    taken + now.queue == start.queue && now == Left(start, |taken|)
  }

  lemma PartwayOn(start: Acker, now: Acker, taken: bytes, n: nat)
    requires Partway(start, now, taken) && n <= |now.queue|
    requires start.remaining.Some? ==> start.remaining.value > 0
    ensures Partway(start, Left(now, n), taken + now.queue[..n])
  {
    LeftTwice(start, |taken|, n);
    TakeMore(taken, now.queue, n);
  }

  lemma TakeMore(taken: bytes, rest: bytes, n: nat)
    requires n <= |rest|
    ensures (taken + rest[..n]) + rest[n..] == taken + rest
  {
  }

  lemma FlushedEmpty(a: Acker, answers: seq<Answer>)
    requires a.queue == []
    ensures Flushed(a, answers) == a.(remaining := None) && !FlushFails(a, answers)
  {
  }

  lemma FlushedStep(a: Acker, answers: seq<Answer>, i: nat)
    requires i <= |answers| && a.queue != []
    ensures if i == |answers| || !answers[i].Took? || answers[i].n == 0 then
              && Flushed(a, answers[i..]) == a
              && (FlushFails(a, answers[i..]) <==> i < |answers| && answers[i].Failed?)
            else
              var a' := Left(a, Min(answers[i].n, |a.queue|));
              && Flushed(a, answers[i..]) == Flushed(a', answers[i + 1..])
              && FlushFails(a, answers[i..]) == FlushFails(a', answers[i + 1..])
  {
    if i < |answers| {
      assert answers[i..][0] == answers[i] && answers[i..][1..] == answers[i + 1..];
    }
  }

  lemma LeftNothing(a: Acker)
    requires a.remaining.Some? ==> a.remaining.value > 0
    ensures Left(a, 0) == a
  {
  }

  /** Departures add up. */
  lemma LeftTwice(a: Acker, m: nat, n: nat)
    requires m + n <= |a.queue|
    requires a.remaining.Some? ==> a.remaining.value > 0
    ensures Left(Left(a, m), n) == Left(a, m + n)
  {
    DropDrop(a.queue, m, n);
  }

  /** A flush is a run of departures: it is covered by every theorem about runs. */
  lemma {:induction false} FlushIsARun(t: Trace, answers: seq<Answer>) returns (events: seq<Event>)
    ensures forall e :: e in events ==> e.Leave? || e.LeaveAll?
    ensures Run(t, events).acker == Flushed(t.acker, answers)
    decreases |answers|
  {
    var a := t.acker;
    if a.queue == [] {
      events := [LeaveAll];
      assert Run(Advance(t, LeaveAll), []) == Advance(t, LeaveAll);
    } else if answers == [] || !answers[0].Took? || answers[0].n == 0 {
      events := [];
    } else {
      var e := Leave(answers[0].n);
      var rest := FlushIsARun(Advance(t, e), answers[1..]);
      events := [e] + rest;
      assert events[1..] == rest;
    }
  }
}
