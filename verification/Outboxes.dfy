/**
 A run of the client's writers (src/client/mod.rs) on one bounded send buffer:
 commands and control messages, chunk-size announcements and media, each written
 whole or refused whole.
 */
module Outboxes {
  import opened Bytes
  import opened Buffers
  import opened ChunkWriter
  import opened MediaOut
  import opened Receivers
  import opened Sync

  /** The send buffer with what the sender remembers. */
  datatype Outbox = Outbox(sender: Sender, queue: bytes, limit: nat)

  predicate Refuses(s: Sender, e: SendEvent) {
    match e
    case Plain(csid, ts, typeId, streamId, payload) =>
      Refusal(OutMessage(csid, 0, ts, |payload| % U32_MODULUS, typeId, streamId), payload, |payload|).Some?
    case Announce(_) => false
    case Media(compact, info, payload) => Choose(s.last, compact, info, |payload|).Err?
  }

  /** An event is written if it is well formed and its wire fits; announcing the present size writes nothing. */
  predicate Takes(o: Outbox, e: SendEvent)
    requires o.sender.chunkSize > 0
  {
    || (e.Announce? && Clamped(e.requested) == o.sender.chunkSize)
    || (!Refuses(o.sender, e) && |o.queue| + |WireOf(o.sender, e)| <= o.limit)
  }

  /** Bytes and memory change together or not at all. */
  function Offer(o: Outbox, e: SendEvent): (o': Outbox)
    requires o.sender.chunkSize > 0
    ensures o'.sender.chunkSize > 0
  {
    if Takes(o, e) then Outbox(NextSender(o.sender, e), o.queue + WireOf(o.sender, e), o.limit) else o
  }

  function OfferAll(o: Outbox, evs: seq<SendEvent>): Outbox
    requires o.sender.chunkSize > 0
    decreases |evs|
  {
    if evs == [] then o else OfferAll(Offer(o, evs[0]), evs[1..])
  }

  /** The events of a run that are written. */
  function Taken(o: Outbox, evs: seq<SendEvent>): seq<SendEvent>
    requires o.sender.chunkSize > 0
    decreases |evs|
  {
    if evs == [] then []
    else (if Takes(o, evs[0]) then [evs[0]] else []) + Taken(Offer(o, evs[0]), evs[1..])
  }

  /** Whatever is refused on the way, the bytes of a run are the wire of the events written. */
  lemma {:induction false} OfferedIsWire(o: Outbox, evs: seq<SendEvent>)
    requires o.sender.chunkSize > 0
    ensures OfferAll(o, evs).queue == o.queue + WireOfAll(o.sender, Taken(o, evs))
    decreases |evs|
  {
    hide WireOf, NextSender, Takes;
    if evs == [] {
      assert o.queue + [] == o.queue;
    } else {
      var o', rest := Offer(o, evs[0]), Taken(Offer(o, evs[0]), evs[1..]);
      OfferedIsWire(o', evs[1..]);
      if Takes(o, evs[0]) {
        assert Taken(o, evs) == [evs[0]] + rest && Taken(o, evs)[1..] == rest;
        var wire, later := WireOf(o.sender, evs[0]), WireOfAll(o'.sender, rest);
        assert (o.queue + wire) + later == o.queue + (wire + later);
      } else {
        assert Taken(o, evs) == [] + rest == rest;
      }
    }
  }

  /** So a receiver recovers exactly what was written. */
  lemma WrittenIsRecovered(
    evs: seq<SendEvent>, limit: nat, r: Receiver, listening: bool, maxMsg: nat, maxActive: nat, maxBytes: nat)
    requires r == Fresh(maxMsg, maxActive, maxBytes, listening) && maxActive >= 1
    requires forall i :: 0 <= i < |evs| ==> Sendable(r.reg, evs[i])
    ensures var o := Outbox(START, [], limit);
            Recovered(Drain(Feed(r, OfferAll(o, evs).queue)), listening, Taken(o, evs)) <==> AllShow(listening, Taken(o, evs))
  {
    hide Drain, WireOfAll, OfferAll, Taken, Sendable, Shows, Recovered, AllShow, Feed;
    var o := Outbox(START, [], limit);
    var taken := Taken(o, evs);
    OfferedIsWire(o, evs);
    TakenAreOffered(o, evs);
    forall i | 0 <= i < |taken|
      ensures Sendable(r.reg, taken[i])
    {
      assert taken[i] in evs;
    }
    var wire := WireOfAll(START, taken);
    assert [] + wire == wire;
    ReceiverRecoversEverything(taken, r, listening, maxMsg, maxActive, maxBytes);
  }

  lemma {:induction false} TakenAreOffered(o: Outbox, evs: seq<SendEvent>)
    requires o.sender.chunkSize > 0
    ensures forall e :: e in Taken(o, evs) ==> e in evs
    decreases |evs|
  {
    hide Takes, Offer;
    if evs != [] {
      TakenAreOffered(Offer(o, evs[0]), evs[1..]);
    }
  }

  /** One call of the writer an event is for. */
  method SendOne(out: Buffer, tracker: MediaHeaderTracker, chunkSize: nat, e: SendEvent)
    returns (r: Result<()>, newSize: nat)
    requires out.Valid() && chunkSize > 0
    modifies out, tracker
    ensures out.Valid() && out.Limit() == old(out.Limit()) && newSize > 0
    ensures var o := Outbox(Sender(chunkSize, old(tracker.last)), old(out.Contents()), old(out.Limit()));
            && (r.Ok? <==> Takes(o, e))
            && Outbox(Sender(newSize, tracker.last), out.Contents(), out.Limit()) == Offer(o, e)
  {
    hide MediaBody, MessageWire, Choose, HeaderBytes;
    newSize := chunkSize;
    match e
    case Plain(csid, ts, typeId, streamId, payload) =>
      assert payload[..|payload|] == payload;
      r := ChunkWrite(out, OutMessage(csid, 0, ts, |payload| % U32_MODULUS, typeId, streamId), payload, |payload|, chunkSize);
    case Announce(requested) =>
      r, newSize := QueuePublishChunkSize(out, requested, chunkSize);
    case Media(compact, info, payload) =>
      r := WriteMediaMessage(out, tracker, compact, info, payload, chunkSize);
  }

  /** Any sequence of them. */
  method SendAll(out: Buffer, tracker: MediaHeaderTracker, chunkSize: nat, evs: seq<SendEvent>) returns (newSize: nat)
    requires out.Valid() && chunkSize > 0
    modifies out, tracker
    ensures out.Valid() && out.Limit() == old(out.Limit()) && newSize > 0
    ensures var o := Outbox(Sender(chunkSize, old(tracker.last)), old(out.Contents()), old(out.Limit()));
            && Outbox(Sender(newSize, tracker.last), out.Contents(), out.Limit()) == OfferAll(o, evs)
            && out.Contents() == o.queue + WireOfAll(o.sender, Taken(o, evs))
  {
    hide WireOfAll, Taken, Offer;
    ghost var o := Outbox(Sender(chunkSize, tracker.last), out.Contents(), out.Limit());
    OfferedIsWire(o, evs);
    newSize := chunkSize;
    for i := 0 to |evs|
      invariant out.Valid() && out.Limit() == o.limit && newSize > 0
      invariant OfferAll(Outbox(Sender(newSize, tracker.last), out.Contents(), out.Limit()), evs[i..]) == OfferAll(o, evs)
    {
      var _, size := SendOne(out, tracker, newSize, evs[i]);
      newSize := size;
      assert evs[i..][1..] == evs[i + 1..];
    }
    assert evs[|evs|..] == [];
  }
}
