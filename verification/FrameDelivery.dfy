/**
 What the client shows its application of a message (src/client/mod.rs): the
 frames of audio, video and data messages, the tracks of multitrack containers
 and the parts of aggregate messages. A poll counts these, so that a message can
 be handled when fewer are left to it than it holds.
 */
module FrameDelivery {
  import opened Bytes
  import opened MediaOut
  import opened Multitrack
  import ModexWrappers

  const MSG_AUDIO: byte := 0x08
  const MSG_VIDEO: byte := 0x09
  const MSG_AMF3_DATA: byte := 0x0F
  const MSG_AMF0_DATA: byte := 0x12
  const MSG_AGGREGATE: byte := 0x16

  const MAX_MESSAGES_PER_POLL: nat := 256
  const MAX_AGGREGATE_SUBTAGS: nat := 4096
  const CAPS_EX_MASK_MODEX: u32 := 4

  /** One thing that a poll counts: nothing for the application, a frame, a track of one, or a frame that is none. */
  datatype Unit =
    | Silent
    | Shown(frameType: FrameType, timestamp: u32, payload: bytes)
    | ShownTrack(frameType: FrameType, timestamp: u32, track: TrackSlice)
    | Malformed

  /** What handling a message gave: the units in order, and the error that ends the connection, if any. */
  datatype Handed = Handed(units: seq<Unit>, error: Option<ErrorCode>)

  /** Only the first `left` units. */
  function Within(h: Handed, left: nat): (r: Handed)
    ensures |r.units| <= left
  {
    Handed(h.units[..Min(left, |h.units|)], h.error)
  }

  // One frame

  function TrackUnits(ft: FrameType, ts: u32, tracks: seq<TrackSlice>): (us: seq<Unit>)
    ensures |us| == |tracks|
  {
    seq(|tracks|, i requires 0 <= i < |tracks| => ShownTrack(ft, ts, tracks[i]))
  }

  /** An audio or video frame: behind its wrappers, either the frame itself or every track of a container. */
  function MediaUnits(ft: FrameType, ts: u32, payload: bytes): Handed {
    var p := ModexWrappers.Normalized(payload, CAPS_EX_MASK_MODEX, ft);
    if !IsMultitrackContainer(ft, p) then Handed([Shown(ft, ts, p)], None)
    else
      match Parse(ft, p)
      case None => Handed([Malformed], Some(Protocol))
      case Some(c) => Handed(TrackUnits(ft, ts, Slices(ft, c)), None)
  }

  /** A frame by its message type; a client without a frame callback looks at none. */
  function FrameUnits(listening: bool, typeId: byte, ts: u32, payload: bytes): Handed {
    if !listening then Handed([Silent], None)
    else if typeId == MSG_AUDIO then MediaUnits(Audio, ts, payload)
    else if typeId == MSG_VIDEO then MediaUnits(Video, ts, payload)
    else if typeId == MSG_AMF0_DATA then Handed([Shown(Script, ts, payload)], None)
    else Handed([Silent], None)
  }

  // Aggregate messages

  datatype SubTag = SubTag(typeId: byte, timestamp: u32, body: bytes, next: nat)

  /** The part of an aggregate at `pos`; behind its body stand four bytes that are not looked at. */
  function ReadSubTag(payload: bytes, pos: nat): (r: Result<SubTag>)
    requires pos + 11 <= |payload|
    ensures r.Ok? ==> 0 < |r.value.body| && r.value.next == pos + 11 + |r.value.body| + 4
    ensures r.Ok? ==> r.value.body <= payload[pos + 11..]
  {
    var size := FromBe24(payload[pos + 1..]);
    if pos + 11 + size > |payload| || size == 0 then Err(Protocol)
    else
      var ts := Extended(payload[pos + 7], FromBe24(payload[pos + 4..]));
      Ok(SubTag(payload[pos], ts, payload[pos + 11..pos + 11 + size], pos + 11 + size + 4))
  }

  /** The fourth byte of a part's timestamp is its most significant. */
  function Extended(hi: byte, lo: nat): u32
    requires lo < 0x100_0000
  {
    hi * 0x100_0000 + lo
  }

  /** A part's timestamp relative to the first part's, on top of the aggregate's own. */
  function Rebased(base: u32, first: u32, ts: u32): u32 {
    (base + (ts - first)) % U32_MODULUS
  }

  /** The units of one part, and the timestamp that the parts are relative to. */
  function PartUnits(listening: bool, base: u32, first: Option<u32>, tag: SubTag): Handed {
    FrameUnits(listening, tag.typeId, Rebased(base, Start(first, tag), tag.timestamp), tag.body)
  }

  function Start(first: Option<u32>, tag: SubTag): u32 {
    if first.Some? then first.value else tag.timestamp
  }

  function More(h: Handed, rest: Handed): Handed {
    Handed(h.units + rest.units, rest.error)
  }

  /** All parts from `pos` on, until one is malformed; `count` came before, `first` is the first one's timestamp. */
  function Unpacked(listening: bool, base: u32, payload: bytes, pos: nat, count: nat, first: Option<u32>): Handed
    decreases |payload| - pos
  {
    if pos + 11 > |payload| then Handed([], None)
    else if count >= MAX_AGGREGATE_SUBTAGS || ReadSubTag(payload, pos).Err? then Handed([], Some(Protocol))
    else
      var tag := ReadSubTag(payload, pos).value;
      var h := PartUnits(listening, base, first, tag);
      if h.error.Some? then h
      else More(h, Unpacked(listening, base, payload, tag.next, count + 1, Some(Start(first, tag))))
  }

  /** The same with `left` units left: a part that begins beyond them ends it, and later ones are not looked at. */
  function UnpackedWithin(
    listening: bool, base: u32, payload: bytes, pos: nat, count: nat, first: Option<u32>, left: nat): (r: Handed)
    ensures |r.units| <= left
    decreases |payload| - pos
  {
    if pos + 11 > |payload| then Handed([], None)
    else if count >= MAX_AGGREGATE_SUBTAGS || ReadSubTag(payload, pos).Err? then Handed([], Some(Protocol))
    else if left == 0 then Handed([], None)
    else
      var tag := ReadSubTag(payload, pos).value;
      var h := Within(PartUnits(listening, base, first, tag), left);
      if h.error.Some? then h
      else
        var rest := UnpackedWithin(listening, base, payload, tag.next, count + 1, Some(Start(first, tag)), left - |h.units|);
        More(h, rest)
  }

  // Any message

  /** An AMF3 data message is a data message that may have a format byte in front. */
  function SingleUnits(listening: bool, typeId: byte, ts: u32, payload: bytes): Handed {
    if typeId != MSG_AMF3_DATA then FrameUnits(listening, typeId, ts, payload)
    else FrameUnits(listening, MSG_AMF0_DATA, ts, if payload != [] && payload[0] == 0 then payload[1..] else payload)
  }

  /** All that a message holds. */
  function Presented(listening: bool, typeId: byte, ts: u32, payload: bytes): Handed {
    if typeId == MSG_AGGREGATE then Unpacked(listening, ts, payload, 0, 0, None)
    else SingleUnits(listening, typeId, ts, payload)
  }

  /** What is handled of a message by a poll that has `left` units left. */
  function PresentedWithin(listening: bool, typeId: byte, ts: u32, payload: bytes, left: nat): (r: Handed)
    ensures |r.units| <= left
  {
    if typeId == MSG_AGGREGATE then UnpackedWithin(listening, ts, payload, 0, 0, None, left)
    else Within(SingleUnits(listening, typeId, ts, payload), left)
  }

  // How much there can be

  lemma {:induction false} TracksAreFew(form: Form, shared: bytes, s: bytes, count: nat)
    requires TracksOf(form, shared, s, count).Some?
    ensures 1 <= |TracksOf(form, shared, s, count).value| <= |s|
    decreases |s|
  {
    hide NextTrack;
    var (_, rest) := NextTrack(form, shared, s).value;
    if rest != [] {
      TracksAreFew(form, shared, rest, count + 1);
    }
  }

  lemma {:induction false} PeeledIsShorter(s: bytes, seen: nat)
    requires ModexWrappers.PeelLayers(s, seen).Some?
    ensures |ModexWrappers.PeelLayers(s, seen).value.1| < |s|
    decreases |s|
  {
    hide ModexWrappers.NextLayer;
    var l := ModexWrappers.NextLayer(s).value;
    if l.next == ModexWrappers.PACKET_TYPE_MODEX {
      PeeledIsShorter(l.rest, seen + 1);
    }
  }

  /** A frame holds at least one unit and no more than it has bytes, except that an empty one can hold one. */
  lemma MediaCounts(ft: FrameType, ts: u32, payload: bytes)
    ensures 1 <= |MediaUnits(ft, ts, payload).units| <= Max(1, |payload|)
    ensures MediaUnits(ft, ts, payload).error.Some? ==> MediaUnits(ft, ts, payload).units == [Malformed]
  {
    hide ModexWrappers.PeelLayers, TracksOf, Announces;
    var p := ModexWrappers.Normalized(payload, CAPS_EX_MASK_MODEX, ft);
    if ModexWrappers.Peel(ft, payload).Some? {
      PeeledIsShorter(payload[1..], 0);
    }
    assert |p| <= |payload|;
    if Parse(ft, p).Some? {
      var form := FormOf(p[1]).value;
      var cc := if form.ManyTracksManyCodecs? then 0 else 4;
      TracksAreFew(form, p[2..2 + cc], p[2 + cc..], 0);
    }
  }

  lemma FrameCounts(listening: bool, typeId: byte, ts: u32, payload: bytes)
    ensures 1 <= |FrameUnits(listening, typeId, ts, payload).units| <= Max(1, |payload|)
  {
    hide MediaUnits;
    MediaCounts(Audio, ts, payload);
    MediaCounts(Video, ts, payload);
  }

  lemma PartCounts(listening: bool, base: u32, first: Option<u32>, tag: SubTag)
    ensures 1 <= |PartUnits(listening, base, first, tag).units| <= Max(1, |tag.body|)
  {
    FrameCounts(listening, tag.typeId, Rebased(base, Start(first, tag), tag.timestamp), tag.body);
  }

  lemma {:induction false} PartsCount(
    listening: bool, base: u32, payload: bytes, pos: nat, count: nat, first: Option<u32>)
    ensures |Unpacked(listening, base, payload, pos, count, first).units| <= SatSub(|payload|, pos)
    decreases |payload| - pos
  {
    hide PartUnits, ReadSubTag, Start;
    if pos + 11 <= |payload| && ReadSubTag(payload, pos).Ok? {
      var tag := ReadSubTag(payload, pos).value;
      PartCounts(listening, base, first, tag);
      PartsCount(listening, base, payload, tag.next, count + 1, Some(Start(first, tag)));
    }
  }

  /** So does any message. */
  lemma MessageCounts(listening: bool, typeId: byte, ts: u32, payload: bytes)
    ensures |Presented(listening, typeId, ts, payload).units| <= Max(1, |payload|)
  {
    hide FrameUnits, Unpacked;
    if typeId == MSG_AGGREGATE {
      PartsCount(listening, ts, payload, 0, 0, None);
    } else if typeId == MSG_AMF3_DATA {
      FrameCounts(listening, MSG_AMF0_DATA, ts, if payload != [] && payload[0] == 0 then payload[1..] else payload);
    } else {
      FrameCounts(listening, typeId, ts, payload);
    }
  }

  // What a poll leaves out

  /** `h` is `all`, handled with `left` units left. */
  predicate CutTo(h: Handed, all: Handed, left: nat) {
    && h.units == all.units[..Min(left, |all.units|)]
    && (left >= |all.units| ==> h == all)
    && (h.error.Some? ==> h.error == all.error)
  }

  /** Cutting the front and the rest cuts the whole. */
  lemma CutMore(h: Handed, rest: Handed, cut: Handed, left: nat)
    requires CutTo(cut, rest, left - |Within(h, left).units|)
    ensures CutTo(More(Within(h, left), cut), More(h, rest), left)
  {
    var now, more := h.units[..Min(left, |h.units|)], rest.units;
    assert now + more[..Min(left - |now|, |more|)] == (h.units + more)[..Min(left, |h.units + more|)];
    if left >= |h.units| {
      assert now == h.units;
    }
  }

  lemma CutOne(h: Handed, rest: Handed, left: nat)
    ensures CutTo(Within(h, left), h, left) && Within(h, left).error == h.error
    ensures h.units == [] ==> CutTo(h, h, left)
    ensures h.units != [] ==> CutTo(Handed([], None), h, 0) && CutTo(Handed([], None), More(h, rest), 0)
  {
  }

  lemma {:induction false} PartsWithin(
    listening: bool, base: u32, payload: bytes, pos: nat, count: nat, first: Option<u32>, left: nat)
    ensures CutTo(UnpackedWithin(listening, base, payload, pos, count, first, left),
                  Unpacked(listening, base, payload, pos, count, first), left)
    decreases |payload| - pos
  {
    hide FrameUnits, ReadSubTag, Rebased, Start, Within, CutTo, More, PartUnits;
    CutOne(Handed([], None), Handed([], None), left);
    CutOne(Handed([], Some(Protocol)), Handed([], None), left);
    if pos + 11 <= |payload| && ReadSubTag(payload, pos).Ok? {
      var tag := ReadSubTag(payload, pos).value;
      PartCounts(listening, base, first, tag);
      var h := PartUnits(listening, base, first, tag);
      var n := left - |Within(h, left).units|;
      var rest := Unpacked(listening, base, payload, tag.next, count + 1, Some(Start(first, tag)));
      PartsWithin(listening, base, payload, tag.next, count + 1, Some(Start(first, tag)), n);
      CutOne(h, rest, left);
      CutMore(h, rest, UnpackedWithin(listening, base, payload, tag.next, count + 1, Some(Start(first, tag)), n), left);
    }
  }

  /**
   A poll handles the units of a message in order until none is left to it. If
   and only if it has as many left as the message holds, the message is handled
   completely; otherwise the other units are lost, and with them an error there.
   */
  lemma HandlesPrefix(listening: bool, typeId: byte, ts: u32, payload: bytes, left: nat)
    ensures var all := Presented(listening, typeId, ts, payload);
            var h := PresentedWithin(listening, typeId, ts, payload, left);
            && h.units == all.units[..Min(left, |all.units|)]
            && (h == all <==> left >= |all.units|)
            && (h.error.Some? ==> h.error == all.error)
  {
    hide FrameUnits, Unpacked, UnpackedWithin;
    if typeId == MSG_AGGREGATE {
      PartsWithin(listening, ts, payload, 0, 0, None, left);
    }
  }

  // What an aggregate means

  datatype Part = Part(typeId: byte, timestamp: u32, body: bytes)

  /** Type, size, timestamp with its most significant byte last, and an unused stream id. */
  function EncodeHeader(p: Part): (h: bytes)
    ensures |h| == 11
  {
    [p.typeId] + (Be24(|p.body|) + (Be24(p.timestamp % 0x100_0000) + [p.timestamp / 0x100_0000, 0, 0, 0]))
  }

  /** Header, body and the size of both. */
  function EncodePart(p: Part): (b: bytes)
    ensures |b| == 11 + |p.body| + 4
  {
    EncodeHeader(p) + (p.body + Be32(11 + |p.body|))
  }

  function EncodeParts(parts: seq<Part>): bytes {
    if parts == [] then [] else EncodePart(parts[0]) + EncodeParts(parts[1..])
  }

  /** The frames of the parts in order, timed from the first one, up to a malformed container or a part too many. */
  function FramesOf(listening: bool, base: u32, first: u32, parts: seq<Part>, room: nat): Handed
    decreases |parts|
  {
    if parts == [] then Handed([], None)
    else if room == 0 then Handed([], Some(Protocol))
    else
      var h := FrameUnits(listening, parts[0].typeId, Rebased(base, first, parts[0].timestamp), parts[0].body);
      if h.error.Some? then h else More(h, FramesOf(listening, base, first, parts[1..], room - 1))
  }

  /** A header gives back its part's type, size and timestamp. */
  lemma HeaderReads(front: bytes, p: Part, tail: bytes)
    requires |p.body| < 0x100_0000
    ensures var s, i := front + EncodeHeader(p) + tail, |front|;
            && s[i] == p.typeId && FromBe24(s[i + 1..]) == |p.body|
            && Extended(s[i + 7], FromBe24(s[i + 4..])) == p.timestamp
  {
    hide Be24, FromBe24;
    var s, i := front + EncodeHeader(p) + tail, |front|;
    var size, lo, hi := Be24(|p.body|), Be24(p.timestamp % 0x100_0000), [p.timestamp / 0x100_0000, 0, 0, 0];
    assert s[i + 1..] == size + (lo + hi + tail);
    assert s[i + 4..] == lo + (hi + tail);
    assert s[i + 7] == hi[0];
    Be24Decodes(|p.body|, lo + hi + tail);
    Be24Decodes(p.timestamp % 0x100_0000, hi + tail);
  }

  lemma ReadsEncoded(front: bytes, p: Part, rest: bytes)
    requires 0 < |p.body| < 0x100_0000
    ensures ReadSubTag(front + EncodePart(p) + rest, |front|)
         == Ok(SubTag(p.typeId, p.timestamp, p.body, |front + EncodePart(p)|))
  {
    hide EncodeHeader, FromBe24, Be32, Extended;
    var s, tail := front + EncodePart(p) + rest, p.body + Be32(11 + |p.body|) + rest;
    HeaderReads(front, p, tail);
    assert s == front + EncodeHeader(p) + tail;
    assert s[|front| + 11..|front| + 11 + |p.body|] == p.body;
  }

  lemma {:induction false} UnpacksRest(
    listening: bool, base: u32, front: bytes, parts: seq<Part>, count: nat, first: Option<u32>, start: u32)
    requires forall i :: 0 <= i < |parts| ==> 0 < |parts[i].body| < 0x100_0000
    requires count <= MAX_AGGREGATE_SUBTAGS
    requires parts == [] || first == Some(start) || (first == None && start == parts[0].timestamp)
    ensures Unpacked(listening, base, front + EncodeParts(parts), |front|, count, first)
         == FramesOf(listening, base, start, parts, MAX_AGGREGATE_SUBTAGS - count)
    decreases |parts|
  {
    hide ReadSubTag, FrameUnits, Rebased, EncodePart;
    if parts != [] && count < MAX_AGGREGATE_SUBTAGS {
      var p, rest := parts[0], parts[1..];
      var more := EncodeParts(rest);
      ReadsEncoded(front, p, more);
      assert front + EncodeParts(parts) == front + EncodePart(p) + more;
      UnpacksRest(listening, base, front + EncodePart(p), rest, count + 1, Some(start), start);
    } else if parts != [] {
      assert |front + EncodeParts(parts)| >= |front| + 11;
    }
  }

  /** An aggregate shows the frames of its parts, in order, each timed relative to the first. */
  lemma UnpacksEncoded(listening: bool, base: u32, parts: seq<Part>)
    requires forall i :: 0 <= i < |parts| ==> 0 < |parts[i].body| < 0x100_0000
    ensures Presented(listening, MSG_AGGREGATE, base, EncodeParts(parts))
         == FramesOf(listening, base, if parts == [] then 0 else parts[0].timestamp, parts, MAX_AGGREGATE_SUBTAGS)
  {
    hide Unpacked, FramesOf, EncodeParts;
    assert [] + EncodeParts(parts) == EncodeParts(parts);
    UnpacksRest(listening, base, [], parts, 0, None, if parts == [] then 0 else parts[0].timestamp);
  }

  // The source's loops

  /**
   `deliver_av_frame_cb`, for a frame that has been counted: every track after
   the first is counted as it is shown, and not shown when none is left.
   */
  method DeliverAvFrame(ft: FrameType, ts: u32, payload: bytes, processed: nat)
    returns (r: Result<()>, shown: seq<Unit>, count: nat)
    ensures match MediaUnits(ft, ts, payload)
            case Handed(units, None) =>
              && r == Ok(()) && shown == units[..Min(|units|, 1 + SatSub(MAX_MESSAGES_PER_POLL, processed))]
              && count + 1 == processed + |shown|
            case Handed(_, Some(e)) => r == Err(e) && shown == []
  {
    hide ModexWrappers.Normalized, TracksOf, Encode, ContainerOk, Slices;
    var p := ModexWrappers.NormalizeModexPayload(payload, CAPS_EX_MASK_MODEX, ft);
    var isMultitrack := IsMultitrackContainer(ft, p);
    count, shown := processed, [];
    MediaCounts(ft, ts, payload);
    var parsed, tracks := ForeachTrack(ft, p);
    assert parsed <==> Parse(ft, p).Some? by {
      if Parse(ft, p).Some? {
        ParsedIsEncoded(ft, p);
      }
      forall c | ContainerOk(ft, c) && p == Encode(ft, c)
        ensures Parse(ft, p).Some?
      {
        ParseEncoded(ft, c);
      }
    }
    if parsed {
      ParsedIsEncoded(ft, p);
      assert tracks == Slices(ft, Parse(ft, p).value);
    }
    ghost var units, most := TrackUnits(ft, ts, tracks), 1 + SatSub(MAX_MESSAGES_PER_POLL, processed);
    for i := 0 to |tracks|
      invariant shown == units[..Min(i, most)]
      invariant count == processed + SatSub(|shown|, 1)
    {
      if i > 0 {
        if count >= MAX_MESSAGES_PER_POLL {
          continue;
        }
        count := count + 1;
      }
      assert |shown| == i < most;
      assert units[..i + 1] == units[..i] + [units[i]];
      shown := shown + [ShownTrack(ft, ts, tracks[i])];
    }
    if isMultitrack && !parsed {
      return Err(Protocol), [], count;
    }
    if !isMultitrack {
      shown := shown + [Shown(ft, ts, p)];
    }
    return Ok(()), shown, count;
  }

  /** A counted frame of any message type; what the application is not shown is recorded as a unit all the same. */
  method DeliverFrame(listening: bool, typeId: byte, ts: u32, payload: bytes, processed: nat)
    returns (r: Result<()>, units: seq<Unit>, count: nat)
    ensures var h := Within(FrameUnits(listening, typeId, ts, payload), 1 + SatSub(MAX_MESSAGES_PER_POLL, processed));
            && units == h.units
            && (if h.error.Some? then r == Err(h.error.value) else r == Ok(()) && count + 1 == processed + |units|)
  {
    hide MediaUnits;
    if listening && (typeId == MSG_AUDIO || typeId == MSG_VIDEO) {
      var ft := if typeId == MSG_AUDIO then Audio else Video;
      MediaCounts(ft, ts, payload);
      r, units, count := DeliverAvFrame(ft, ts, payload, processed);
      if r.Err? {
        units := [Malformed];
      }
    } else if listening && typeId == MSG_AMF0_DATA {
      r, units, count := Ok(()), [Shown(Script, ts, payload)], processed;
    } else {
      r, units, count := Ok(()), [Silent], processed;
    }
  }

  lemma MoreTwice(a: seq<Unit>, h: Handed, rest: Handed)
    ensures More(Handed(a, None), More(h, rest)) == More(Handed(a + h.units, None), rest)
    ensures More(Handed([], None), rest) == rest
    ensures More(Handed(a, None), Handed([], rest.error)) == Handed(a, rest.error)
  {
    assert a + (h.units + rest.units) == a + h.units + rest.units;
  }

  /** `handle_aggregate_message`: each part is counted, shown if it is a frame, and not looked at when none is left. */
  method HandleAggregate(listening: bool, base: u32, payload: bytes, processed: nat)
    returns (r: Result<()>, units: seq<Unit>, count: nat)
    ensures match UnpackedWithin(listening, base, payload, 0, 0, None, SatSub(MAX_MESSAGES_PER_POLL, processed))
            case Handed(all, None) => r == Ok(()) && units == all && count == processed + |all|
            case Handed(all, Some(e)) => r == Err(e) && units == all
  {
    hide FrameUnits, ReadSubTag, Rebased, Within;
    var pos, subtags, first := 0, 0, None;
    units, count := [], processed;
    ghost var goal := UnpackedWithin(listening, base, payload, 0, 0, None, SatSub(MAX_MESSAGES_PER_POLL, processed));
    MoreTwice([], goal, goal);
    while pos + 11 <= |payload|
      invariant count == processed + |units|
      invariant goal == More(Handed(units, None),
                             UnpackedWithin(listening, base, payload, pos, subtags, first, SatSub(MAX_MESSAGES_PER_POLL, count)))
      decreases |payload| - pos
    {
      ghost var left := SatSub(MAX_MESSAGES_PER_POLL, count);
      MoreTwice(units, Handed([], None), UnpackedWithin(listening, base, payload, pos, subtags, first, left));
      if subtags >= MAX_AGGREGATE_SUBTAGS {
        return Err(Protocol), units, count;
      }
      var tag := ReadSubTag(payload, pos);
      if tag.Err? {
        return Err(Protocol), units, count;
      }
      if count >= MAX_MESSAGES_PER_POLL {
        break;
      }
      ghost var part := Within(PartUnits(listening, base, first, tag.value), left);
      subtags, count := subtags + 1, count + 1;
      if first.None? {
        first := Some(tag.value.timestamp);
      }
      var ok, shown, now := DeliverFrame(
        listening, tag.value.typeId, Rebased(base, first.value, tag.value.timestamp), tag.value.body, count);
      assert shown == part.units;
      if ok.Err? {
        return ok, units + shown, now;
      }
      MoreTwice(units, part, UnpackedWithin(listening, base, payload, tag.value.next, subtags, first, left - |shown|));
      units, count, pos := units + shown, now, tag.value.next;
    }
    MoreTwice(units, goal, goal);
    return Ok(()), units, count;
  }
}
