/**
 The relay fan-out of src/server/mod.rs: a frame is chunked once per chunk size
 and the body is shared by the players that use it, each with its own header in
 front. Players that flow control skips miss a frame; a player that cannot be
 served is stopped.
 */
module Relay {
  import opened Bytes
  import opened Buffers
  import opened ChunkWire
  import opened ChunkState
  import opened ChunkReader
  import opened MediaOut
  import opened Receivers
  import opened Sync

  datatype Frame = Frame(frameType: FrameType, timestamp: u32, payload: bytes)

  datatype Player = Player(
    queue: bytes, limit: nat, last: Tracker, compact: bool, msgStreamId: u32, activeChunkSize: nat, live: bool)

  function MediaChunkSize(p: Player): nat {
    EffectiveChunkSize(p.activeChunkSize)
  }

  function BodyOf(f: Frame, chunkSize: nat): bytes {
    MediaBody(f.frameType, f.timestamp, f.payload, chunkSize)
  }

  /** The body a relay can share: encoding it fails when it is larger than a buffer may be. */
  function Encoded(f: Frame, chunkSize: nat): Option<bytes> {
    if |BodyOf(f, chunkSize)| <= BUFFER_MAX_SIZE then Some(BodyOf(f, chunkSize)) else None
  }

  function InfoFor(p: Player, f: Frame): MediaInfo {
    MediaInfo(f.frameType, p.msgStreamId, f.timestamp)
  }

  function Updated(p: Player, s: Sent): Player {
    if s.result.Ok? then p.(queue := s.queue, last := s.last) else p.(live := false)
  }

  /** `relay_frame_to_player` once flow control has let the frame through. */
  function Served(p: Player, f: Frame): Player {
    match Encoded(f, MediaChunkSize(p))
    case None => p.(live := false)
    case Some(body) => Updated(p, SendShared(p.queue, p.limit, p.last, p.compact, InfoFor(p, f), |f.payload|, body))
  }

  /** What the player would get if it encoded the frame for itself. */
  function ServedDirectly(p: Player, f: Frame): Player {
    Updated(p, SendDirect(p.queue, p.limit, p.last, p.compact, InfoFor(p, f), f.payload, MediaChunkSize(p)))
  }

  /** What flow control decides for a player and a frame; it may decide anything. */
  datatype Decision = Send | Skip | Disconnect

  type Flow = (nat, nat) -> Decision

  /** Player `i` after frame `k`. */
  function Turned(p: Player, i: nat, frames: seq<Frame>, k: nat, flow: Flow): Player
    requires k < |frames|
  {
    if !p.live then p
    else
      match flow(i, k)
      case Send => Served(p, frames[k])
      case Skip => p
      case Disconnect => p.(live := false)
  }

  /** Player `i` after the frames from `k` on. */
  function Relayed(p: Player, i: nat, frames: seq<Frame>, k: nat, flow: Flow): Player
    requires k <= |frames|
    decreases |frames| - k
  {
    if k == |frames| then p
    else Relayed(Turned(p, i, frames, k, flow), i, frames, k + 1, flow)
  }

  function RelayedDirectly(p: Player, i: nat, frames: seq<Frame>, k: nat, flow: Flow): Player
    requires k <= |frames|
    decreases |frames| - k
  {
    if k == |frames| then p
    else
      var p' := if p.live && flow(i, k).Send? then ServedDirectly(p, frames[k]) else Turned(p, i, frames, k, flow);
      RelayedDirectly(p', i, frames, k + 1, flow)
  }

  /** Sharing is not only as good when it works: it also fails exactly when encoding alone would have failed. */
  lemma ServedAsDirectly(p: Player, f: Frame)
    requires p.limit <= BUFFER_MAX_SIZE
    ensures Served(p, f) == ServedDirectly(p, f)
  {
    hide MediaBody, Choose, HeaderBytes;
    SharedSendIsDirectSend(p.queue, p.limit, p.last, p.compact, InfoFor(p, f), f.payload, MediaChunkSize(p));
  }

  /** Over every run, for any histories, chunk sizes and skips, each player is where it would be on its own. */
  lemma {:induction false} RelayRefinesDirect(p: Player, i: nat, frames: seq<Frame>, k: nat, flow: Flow)
    requires k <= |frames| && p.limit <= BUFFER_MAX_SIZE
    ensures Relayed(p, i, frames, k, flow) == RelayedDirectly(p, i, frames, k, flow)
    decreases |frames| - k
  {
    hide Served, ServedDirectly;
    if k < |frames| {
      var p' := Turned(p, i, frames, k, flow);
      ServedAsDirectly(p, frames[k]);
      ServedKeeps(p, frames[k]);
      RelayRefinesDirect(p', i, frames, k + 1, flow);
    }
  }

  lemma ServedKeeps(p: Player, f: Frame)
    ensures var p' := Served(p, f);
            p'.limit == p.limit && p'.compact == p.compact && p'.msgStreamId == p.msgStreamId
            && p'.activeChunkSize == p.activeChunkSize
  {
  }

  // The receiving side

  /** The player as the sender of what it is given. */
  function SenderOf(p: Player): Sender {
    Sender(MediaChunkSize(p), p.last)
  }

  /** The frames that reached the player's queue, as its own media messages. */
  function Accepted(p: Player, i: nat, frames: seq<Frame>, k: nat, flow: Flow): seq<SendEvent>
    requires k <= |frames|
    decreases |frames| - k
  {
    if k == |frames| then []
    else
      var p' := Turned(p, i, frames, k, flow);
      (if p'.live && flow(i, k).Send? then [Media(p.compact, InfoFor(p, frames[k]), frames[k].payload)] else [])
      + Accepted(p', i, frames, k + 1, flow)
  }

  /** What serving one frame puts on the wire, if anything, is that message as this sender would write it. */
  lemma ServedIsWire(p: Player, f: Frame)
    requires p.live
    ensures var p', e := Served(p, f), Media(p.compact, InfoFor(p, f), f.payload);
            if p'.live then
              p'.queue == p.queue + WireOf(SenderOf(p), e) && SenderOf(p') == NextSender(SenderOf(p), e)
            else p'.queue == p.queue && p'.last == p.last
  {
    hide MediaBody, Choose, HeaderBytes;
    var body := BodyOf(f, MediaChunkSize(p));
    match Choose(p.last, p.compact, InfoFor(p, f), |f.payload|)
    case Err(_) =>
    case Ok(h) =>
      assert p.queue + HeaderBytes(h) + body == p.queue + (HeaderBytes(h) + body);
  }

  /** The bytes a run adds to a player's queue are the wire of the frames accepted for it. */
  lemma {:induction false} RelayedIsWire(p: Player, i: nat, frames: seq<Frame>, k: nat, flow: Flow)
    requires k <= |frames|
    ensures Relayed(p, i, frames, k, flow).queue
         == p.queue + WireOfAll(SenderOf(p), Accepted(p, i, frames, k, flow))
    decreases |frames| - k
  {
    hide Served, WireOf, NextSender;
    if k == |frames| {
      assert p.queue + [] == p.queue;
    } else {
      var f := frames[k];
      var p', e := Turned(p, i, frames, k, flow), Media(p.compact, InfoFor(p, f), f.payload);
      if p.live {
        ServedIsWire(p, f);
        ServedKeeps(p, f);
      }
      RelayedIsWire(p', i, frames, k + 1, flow);
      var rest := Accepted(p', i, frames, k + 1, flow);
      var all := Accepted(p, i, frames, k, flow);
      if p'.live && flow(i, k).Send? {
        assert all == [e] + rest && all[1..] == rest;
        var wire, later := WireOf(SenderOf(p), e), WireOfAll(SenderOf(p'), rest);
        assert (p.queue + wire) + later == p.queue + (wire + later);
      } else {
        assert all == [] + rest == rest;
      }
    }
  }

  /** The frames meant for a player: those flow control lets through before it disconnects it, if it does. */
  function Meant(i: nat, frames: seq<Frame>, k: nat, flow: Flow): seq<Frame>
    requires k <= |frames|
    decreases |frames| - k
  {
    if k == |frames| then []
    else
      match flow(i, k)
      case Send => [frames[k]] + Meant(i, frames, k + 1, flow)
      case Skip => Meant(i, frames, k + 1, flow)
      case Disconnect => []
  }

  /** What the application behind a player sees of the frames. */
  function ContentsOf(p: Player, fs: seq<Frame>): seq<Content> {
    seq(|fs|, j requires 0 <= j < |fs| =>
      var slot := MediaChunkStream(fs[j].frameType);
      Content(slot.csid, fs[j].timestamp, slot.typeId, p.msgStreamId, fs[j].payload))
  }

  /** A player that is stopped is served nothing any more. */
  lemma {:induction false} StoppedStays(p: Player, i: nat, frames: seq<Frame>, k: nat, flow: Flow)
    requires k <= |frames| && !p.live
    ensures Relayed(p, i, frames, k, flow) == p && Accepted(p, i, frames, k, flow) == []
    decreases |frames| - k
  {
    if k < |frames| {
      StoppedStays(p, i, frames, k + 1, flow);
    }
  }

  /** Flow control disconnects the player at some frame from `k` on. */
  predicate Disconnects(i: nat, frames: seq<Frame>, k: nat, flow: Flow) {
    exists j :: k <= j < |frames| && flow(i, j).Disconnect?
  }

  /** Accepted are the frames meant for the player, up to the one that stopped it, if one did. */
  lemma {:induction false} AcceptedAreMeant(p: Player, i: nat, frames: seq<Frame>, k: nat, flow: Flow)
    requires k <= |frames| && p.live
    ensures var sent := SentByAll(SenderOf(p), Accepted(p, i, frames, k, flow));
            var meant := ContentsOf(p, Meant(i, frames, k, flow));
            && sent <= meant
            && (Relayed(p, i, frames, k, flow).live <==> sent == meant && !Disconnects(i, frames, k, flow))
    decreases |frames| - k
  {
    hide Served, WireOf, NextSender, MediaChunkStream, SentBy, ContentsOf, Disconnects;
    DisconnectsFrom(i, frames, k, flow);
    if k < |frames| {
      var f := frames[k];
      var p' := Turned(p, i, frames, k, flow);
      var rest := Meant(i, frames, k + 1, flow);
      var more := Accepted(p', i, frames, k + 1, flow);
      assert [] + more == more;
      if p'.live {
        AcceptedAreMeant(p', i, frames, k + 1, flow);
      } else {
        StoppedStays(p', i, frames, k + 1, flow);
      }
      if flow(i, k).Send? {
        ServedIsWire(p, f);
        ServedKeeps(p, f);
        ContentsFirst(p, p', f, rest);
        var e := Media(p.compact, InfoFor(p, f), f.payload);
        assert ([e] + more)[1..] == more;
        SameFront(SentBy(SenderOf(p), e), SentByAll(SenderOf(p'), more), ContentsOf(p, rest));
      }
    } else {
      NoContents(p);
    }
  }

  lemma DisconnectsFrom(i: nat, frames: seq<Frame>, k: nat, flow: Flow)
    ensures Disconnects(i, frames, k, flow) <==> k < |frames| && (flow(i, k).Disconnect? || Disconnects(i, frames, k + 1, flow))
  {
  }

  lemma SameFront<T>(a: seq<T>, b: seq<T>, c: seq<T>)
    ensures a + b == a + c <==> b == c
    ensures b <= c ==> a + b <= a + c
  {
    assert (a + b)[|a|..] == b && (a + c)[|a|..] == c;
  }

  lemma NoContents(p: Player)
    ensures ContentsOf(p, []) == []
  {
  }

  lemma ContentsFirst(p: Player, p': Player, f: Frame, rest: seq<Frame>)
    ensures ContentsOf(p, [f] + rest)
         == SentBy(SenderOf(p), Media(p.compact, InfoFor(p, f), f.payload)) + ContentsOf(p, rest)
    ensures |ContentsOf(p, [f] + rest)| > 0
    ensures p'.msgStreamId == p.msgStreamId ==> ContentsOf(p', rest) == ContentsOf(p, rest)
  {
  }

  /**
   A receiver in step with its player recovers from the shared bytes exactly the
   frames meant for it, up to the one it was stopped at, if it was: in order,
   with their timestamps and payloads, and nothing else; unless one of them is a
   malformed container that a listening receiver refuses.
   */
  lemma EveryPlayerReceives(
    p: Player, i: nat, frames: seq<Frame>, flow: Flow, reg: Registry, listening: bool)
    returns (got: seq<Message>)
    requires p.live && InSync(SenderOf(p), reg)
    requires forall k :: 0 <= k < |frames| ==> Fits(reg, |frames[k].payload|)
    ensures var p' := Relayed(p, i, frames, 0, flow);
            && p.queue <= p'.queue
            && Contents(got) <= ContentsOf(p, Meant(i, frames, 0, flow))
            && (p'.live ==> Contents(got) == ContentsOf(p, Meant(i, frames, 0, flow)))
            && var r := Drain(Receiving(reg, p'.queue[|p.queue|..], listening));
               if AllShow(listening, Accepted(p, i, frames, 0, flow)) then
                 && r.Running? && r.unread == [] && r.delivered == got
                 && r.handled == UnitsOf(listening, Contents(got))
               else r.Failed?
  {
    hide Drain, WireOfAll, SentByAll, InSync, Accepted, Relayed, Meant, ContentsOf, Fits, Contents, Shows, UnitsOf;
    var evs := Accepted(p, i, frames, 0, flow);
    RelayedIsWire(p, i, frames, 0, flow);
    AcceptedAreMeant(p, i, frames, 0, flow);
    AcceptedFits(p, i, frames, 0, flow, reg);
    var wire := WireOfAll(SenderOf(p), evs);
    assert (p.queue + wire)[|p.queue|..] == wire;
    var _, ms := RunArrives(SenderOf(p), reg, evs, Receiving(reg, wire, listening));
    got := ms;
    var us := UnitsOf(listening, Contents(ms));
    assert [] + ms == ms && [] + us == us;
  }

  lemma {:induction false} AcceptedFits(
    p: Player, i: nat, frames: seq<Frame>, k: nat, flow: Flow, reg: Registry)
    requires k <= |frames| && forall j :: 0 <= j < |frames| ==> Fits(reg, |frames[j].payload|)
    ensures forall j :: 0 <= j < |Accepted(p, i, frames, k, flow)| ==>
              Sendable(reg, Accepted(p, i, frames, k, flow)[j])
    decreases |frames| - k
  {
    hide Fits, Served;
    if k < |frames| {
      AcceptedFits(Turned(p, i, frames, k, flow), i, frames, k + 1, flow, reg);
    }
  }

  // The source's arena of shared bodies

  /** A body by frame index and chunk size, and whether a staged message refers to it. */
  datatype Body = Body(frame: nat, chunkSize: nat, contents: bytes, staged: bool)

  predicate IsFor(b: Body, k: nat, chunkSize: nat) {
    b.frame == k && b.chunkSize == chunkSize
  }

  class BodyArena {
    var bodies: seq<Body>
    var spare: Option<Buffer>

    /** A spare buffer is empty, so that encoding into it leaves nothing of the frame before. */
    ghost predicate Valid()
      reads this, if spare.Some? then {spare.value} else {}
    {
      spare.Some? ==> spare.value.Valid() && spare.value.Contents() == [] && spare.value.Limit() == BUFFER_MAX_SIZE
    }

    /** Every body kept is the encoding of the frame it is kept for. */
    ghost predicate Holds(frames: seq<Frame>)
      reads this
    {
      forall j :: 0 <= j < |bodies| ==>
        bodies[j].frame < |frames| && Encoded(frames[bodies[j].frame], bodies[j].chunkSize) == Some(bodies[j].contents)
    }

    constructor ()
      ensures Valid() && bodies == [] && spare.None?
    {
      bodies, spare := [], None;
    }

    /** The last body kept for this frame and chunk size. */
    method Kept(k: nat, chunkSize: nat) returns (index: Option<nat>)
      ensures index.Some? ==> index.value < |bodies| && IsFor(bodies[index.value], k, chunkSize)
      ensures forall j :: (if index.Some? then index.value + 1 else 0) <= j < |bodies| ==> !IsFor(bodies[j], k, chunkSize)
    {
      var j := |bodies|;
      while j > 0
        invariant 0 <= j <= |bodies|
        invariant forall i :: j <= i < |bodies| ==> !IsFor(bodies[i], k, chunkSize)
      {
        j := j - 1;
        if IsFor(bodies[j], k, chunkSize) {
          return Some(j);
        }
      }
      return None;
    }

    /** Encodes into the spare buffer, or a new one; a buffer that was too small is not kept. */
    method Encode(f: Frame, chunkSize: nat) returns (body: Option<bytes>)
      requires Valid()
      modifies this`spare, if spare.Some? then {spare.value} else {}
      ensures spare.None? && body == Encoded(f, chunkSize)
    {
      hide MediaBody;
      var buffer;
      if spare.Some? {
        buffer := spare.value;
      } else {
        buffer := new Buffer();
      }
      spare := None;
      var r := EncodeMediaBody(buffer, f.frameType, f.timestamp, f.payload, chunkSize);
      if r.Err? {
        return None;
      }
      assert [] + BodyOf(f, chunkSize) == BodyOf(f, chunkSize);
      return Some(buffer.Contents());
    }

    /** The shared body of a frame, encoded at most once per chunk size; kept or fresh, the same body. */
    method BodyFor(frames: seq<Frame>, k: nat, chunkSize: nat) returns (index: Option<nat>)
      requires Valid() && Holds(frames) && k < |frames|
      modifies this, if spare.Some? then {spare.value} else {}
      ensures Valid() && Holds(frames) && old(bodies) <= bodies
      ensures spare.None? || spare == old(spare)
      ensures match Encoded(frames[k], chunkSize)
              case None => index.None?
              case Some(b) => index.Some? && index.value < |bodies| && bodies[index.value].contents == b
    {
      hide Encoded;
      index := Kept(k, chunkSize);
      if index.Some? {
        return;
      }
      var body := Encode(frames[k], chunkSize);
      if body.None? {
        return None;
      }
      bodies := bodies + [Body(k, chunkSize, body.value, false)];
      return Some(|bodies| - 1);
    }

    /** A staged message refers to this body from now on. */
    method MarkStaged(index: nat)
      requires Valid() && index < |bodies|
      modifies this`bodies
      ensures Valid() && bodies == old(bodies)[index := old(bodies)[index].(staged := true)]
      ensures forall frames :: old(Holds(frames)) ==> Holds(frames)
    {
      bodies := bodies[index := bodies[index].(staged := true)];
    }

    /** Drops the bodies at the end that no staged message needs; one buffer is kept, emptied. */
    method ReleaseUnstaged(ghost frames: seq<Frame>)
      requires Valid() && Holds(frames)
      modifies this
      ensures Valid() && Holds(frames) && bodies <= old(bodies)
      ensures spare == old(spare) || (spare.Some? && fresh(spare.value))
      ensures bodies != [] ==> bodies[|bodies| - 1].staged
      ensures forall j :: |bodies| <= j < |old(bodies)| ==> !old(bodies)[j].staged
    {
      while bodies != [] && !bodies[|bodies| - 1].staged
        invariant Valid() && Holds(frames) && bodies <= old(bodies)
        invariant spare == old(spare) || (spare.Some? && fresh(spare.value))
        invariant forall j :: |bodies| <= j < |old(bodies)| ==> !old(bodies)[j].staged
        decreases |bodies|
      {
        var body := new Buffer.FromSlice(bodies[|bodies| - 1].contents);
        bodies := bodies[..|bodies| - 1];
        body.Reset();
        spare := Some(body);
      }
    }
  }
}
