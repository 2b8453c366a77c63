/**
 E-RTMP multitrack containers, src/ertmp/multitrack_media.rs. The grammar is a
 datatype of containers with an encoder; the walk over positions is proved to
 accept exactly the encodings and to visit exactly their tracks.
 */
module Multitrack {
  import opened Bytes
  import opened MediaOut

  const MAX_MULTITRACK_SUBTRACKS: nat := 4096
  const AUDIO_MULTITRACK: nat := 5
  const VIDEO_MULTITRACK: nat := 6
  const VIDEO_FRAME_TYPE_COMMAND: nat := 5

  // The grammar

  datatype Form = OneTrack | ManyTracks | ManyTracksManyCodecs

  datatype Track = Track(id: byte, fourcc: bytes, body: bytes)

  /** `first` is the byte with the frame type and the packet type; `shared` is empty for many codecs. */
  datatype Container = Container(first: byte, form: Form, packetType: byte, shared: bytes, tracks: seq<Track>)

  function FormCode(f: Form): byte {
    match f
    case OneTrack => 0
    case ManyTracks => 1
    case ManyTracksManyCodecs => 2
  }

  predicate TrackOk(form: Form, shared: bytes, t: Track) {
    && |t.fourcc| == 4
    && (!form.ManyTracksManyCodecs? ==> t.fourcc == shared)
    && (!form.OneTrack? ==> |t.body| < 0x100_0000)
  }

  predicate TracksOk(form: Form, shared: bytes, tracks: seq<Track>) {
    && tracks != []
    && (form.OneTrack? ==> |tracks| == 1)
    && forall i :: 0 <= i < |tracks| ==> TrackOk(form, shared, tracks[i])
  }

  /** Whether the first byte announces a multitrack container of this kind of frame. */
  predicate Announces(frameType: FrameType, first: byte) {
    match frameType
    case Video => first >= 0x80 && first / 16 % 8 != VIDEO_FRAME_TYPE_COMMAND && first % 16 == VIDEO_MULTITRACK
    case Audio => first / 16 == 0x09 && first % 16 == AUDIO_MULTITRACK
    case _ => false
  }

  predicate ContainerOk(frameType: FrameType, c: Container) {
    && Announces(frameType, c.first)
    && c.packetType < 16
    && (if c.form.ManyTracksManyCodecs? then c.shared == [] else |c.shared| == 4)
    && TracksOk(c.form, c.shared, c.tracks)
    && |c.tracks| <= MAX_MULTITRACK_SUBTRACKS
  }

  /** Track id, size unless there is only one track, and body. */
  function EncodeBody(form: Form, t: Track): bytes
    requires !form.OneTrack? ==> |t.body| < 0x100_0000
  {
    if form.OneTrack? then [t.id] + t.body else [t.id] + (Be24(|t.body|) + t.body)
  }

  function EncodeTrack(form: Form, shared: bytes, t: Track): bytes
    requires TrackOk(form, shared, t)
  {
    if form.ManyTracksManyCodecs? then t.fourcc + EncodeBody(form, t) else EncodeBody(form, t)
  }

  function EncodeTracks(form: Form, shared: bytes, tracks: seq<Track>): bytes
    requires forall i :: 0 <= i < |tracks| ==> TrackOk(form, shared, tracks[i])
  {
    if tracks == [] then [] else EncodeTrack(form, shared, tracks[0]) + EncodeTracks(form, shared, tracks[1..])
  }

  function Encode(frameType: FrameType, c: Container): bytes
    requires ContainerOk(frameType, c)
  {
    [c.first, 16 * FormCode(c.form) + c.packetType] + (c.shared + EncodeTracks(c.form, c.shared, c.tracks))
  }

  // Parsing one track at a time

  /** The rest of a track, whose codec is known, and what follows it. */
  function NextBody(form: Form, fourcc: bytes, s: bytes): (r: Option<(Track, bytes)>)
    ensures r.Some? ==> |r.value.1| < |s|
  {
    if s == [] then None
    else if form.OneTrack? then Some((Track(s[0], fourcc, s[1..]), []))
    else if |s| < 4 || 4 + FromBe24(s[1..]) > |s| then None
    else Some((Track(s[0], fourcc, s[4..4 + FromBe24(s[1..])]), s[4 + FromBe24(s[1..])..]))
  }

  /** One track off the front of `s`, and what follows it. */
  function NextTrack(form: Form, shared: bytes, s: bytes): (r: Option<(Track, bytes)>)
    ensures r.Some? ==> |r.value.1| < |s|
  {
    if !form.ManyTracksManyCodecs? then NextBody(form, shared, s)
    else if |s| < 4 then None
    else NextBody(form, s[..4], s[4..])
  }

  /** All the tracks of `s`, which must be used up exactly; `count` have been seen before. */
  function TracksOf(form: Form, shared: bytes, s: bytes, count: nat): Option<seq<Track>>
    decreases |s|
  {
    match NextTrack(form, shared, s)
    case None => None
    case Some((t, rest)) =>
      if count >= MAX_MULTITRACK_SUBTRACKS then None
      else if rest == [] then Some([t])
      else Prepend([t], TracksOf(form, shared, rest, count + 1))
  }

  function Prepend(front: seq<Track>, back: Option<seq<Track>>): Option<seq<Track>> {
    match back
    case None => None
    case Some(tracks) => Some(front + tracks)
  }

  function FormOf(b: byte): Option<Form> {
    if b / 16 == 0 then Some(OneTrack)
    else if b / 16 == 1 then Some(ManyTracks)
    else if b / 16 == 2 then Some(ManyTracksManyCodecs)
    else None
  }

  function Parse(frameType: FrameType, s: bytes): Option<Container> {
    if |s| < 3 || !Announces(frameType, s[0]) || FormOf(s[1]).None? then None
    else
      var form := FormOf(s[1]).value;
      var cc := if form.ManyTracksManyCodecs? then 0 else 4;
      if |s| < 2 + cc then None
      else
        var shared := s[2..2 + cc];
        match TracksOf(form, shared, s[2 + cc..], 0)
        case None => None
        case Some(tracks) => Some(Container(s[0], form, s[1] % 16, shared, tracks))
  }

  // Parsing is exact

  lemma BodyBehindSize(form: Form, t: Track, size: bytes, rest: bytes)
    requires if form.OneTrack? then size == rest == [] else |size| == 3 && FromBe24(size + (t.body + rest)) == |t.body|
    ensures NextBody(form, t.fourcc, [t.id] + (size + (t.body + rest))) == Some((t, rest))
  {
    hide FromBe24;
    var s, n := [t.id] + (size + (t.body + rest)), |t.body|;
    assert s[1..] == size + (t.body + rest);
    if form.OneTrack? {
      assert s[1..] == t.body;
    } else {
      assert s[4..4 + n] == t.body && s[4 + n..] == rest;
    }
  }

  lemma BodyIsEncoded(form: Form, fourcc: bytes, s: bytes)
    requires NextBody(form, fourcc, s).Some?
    ensures var (t, rest) := NextBody(form, fourcc, s).value;
            && t.fourcc == fourcc
            && (if form.OneTrack? then rest == [] else |t.body| < 0x100_0000)
            && s == EncodeBody(form, t) + rest
  {
    hide Be24, FromBe24;
    if !form.OneTrack? {
      var n := FromBe24(s[1..]);
      Be24Encodes(s[1..]);
      assert s[1..][..3] == s[1..4];
      assert s == [s[0]] + (s[1..4] + s[4..4 + n]) + s[4 + n..];
    } else {
      assert s == [s[0]] + s[1..] + [];
    }
  }

  lemma NextOfEncoded(form: Form, shared: bytes, t: Track, rest: bytes)
    requires TrackOk(form, shared, t) && (form.OneTrack? ==> rest == [])
    ensures NextTrack(form, shared, EncodeTrack(form, shared, t) + rest) == Some((t, rest))
  {
    hide NextBody, Be24, FromBe24;
    var size := if form.OneTrack? then [] else Be24(|t.body|);
    if !form.OneTrack? {
      Be24Decodes(|t.body|, t.body + rest);
    }
    BodyBehindSize(form, t, size, rest);
    assert EncodeBody(form, t) + rest == [t.id] + (size + (t.body + rest));
    hide EncodeBody;
    if form.ManyTracksManyCodecs? {
      var s := EncodeTrack(form, shared, t) + rest;
      assert s == t.fourcc + (EncodeBody(form, t) + rest);
      assert s[..4] == t.fourcc && s[4..] == EncodeBody(form, t) + rest;
    }
  }

  lemma NextIsEncoded(form: Form, shared: bytes, s: bytes)
    requires NextTrack(form, shared, s).Some? && (form.ManyTracksManyCodecs? || |shared| == 4)
    ensures var (t, rest) := NextTrack(form, shared, s).value;
            && TrackOk(form, shared, t)
            && s == EncodeTrack(form, shared, t) + rest
            && (form.OneTrack? ==> rest == [])
  {
    hide NextBody, EncodeBody;
    if form.ManyTracksManyCodecs? {
      BodyIsEncoded(form, s[..4], s[4..]);
      var (t, rest) := NextTrack(form, shared, s).value;
      assert s == s[..4] + (EncodeBody(form, t) + rest) == (s[..4] + EncodeBody(form, t)) + rest;
    } else {
      BodyIsEncoded(form, shared, s);
    }
  }

  lemma {:induction false} TracksOfEncoded(form: Form, shared: bytes, tracks: seq<Track>, count: nat)
    requires TracksOk(form, shared, tracks)
    ensures TracksOf(form, shared, EncodeTracks(form, shared, tracks), count)
            == if count + |tracks| <= MAX_MULTITRACK_SUBTRACKS then Some(tracks) else None
    decreases |tracks|
  {
    hide NextTrack, EncodeTrack;
    var t, others := tracks[0], tracks[1..];
    var rest := EncodeTracks(form, shared, others);
    NextOfEncoded(form, shared, t, rest);
    assert tracks == [t] + others;
    assert forall i :: 0 <= i < |others| ==> others[i] == tracks[i + 1];
    if others != [] {
      EncodedNotEmpty(form, shared, others);
      TracksOfEncoded(form, shared, others, count + 1);
    } else {
      assert rest == [] && tracks == [t];
    }
  }

  lemma EncodedNotEmpty(form: Form, shared: bytes, tracks: seq<Track>)
    requires TracksOk(form, shared, tracks)
    ensures EncodeTracks(form, shared, tracks) != []
  {
    assert |EncodeTrack(form, shared, tracks[0])| > 0;
  }

  lemma {:induction false} TracksAreEncoded(form: Form, shared: bytes, s: bytes, count: nat)
    requires TracksOf(form, shared, s, count).Some? && (form.ManyTracksManyCodecs? || |shared| == 4)
    ensures var tracks := TracksOf(form, shared, s, count).value;
            && TracksOk(form, shared, tracks) && count + |tracks| <= MAX_MULTITRACK_SUBTRACKS
            && s == EncodeTracks(form, shared, tracks)
    decreases |s|
  {
    hide NextTrack, EncodeTrack;
    NextIsEncoded(form, shared, s);
    var (t, rest) := NextTrack(form, shared, s).value;
    if rest == [] {
      assert [t][1..] == [];
      assert EncodeTracks(form, shared, [t]) == EncodeTrack(form, shared, t) + EncodeTracks(form, shared, []);
    } else {
      TracksAreEncoded(form, shared, rest, count + 1);
      var others := TracksOf(form, shared, rest, count + 1).value;
      assert ([t] + others)[1..] == others;
    }
  }

  /** Parsing inverts encoding. */
  lemma ParseEncoded(frameType: FrameType, c: Container)
    requires ContainerOk(frameType, c)
    ensures Parse(frameType, Encode(frameType, c)) == Some(c)
  {
    hide TracksOf, EncodeTracks;
    var s := Encode(frameType, c);
    TracksOfEncoded(c.form, c.shared, c.tracks, 0);
    EncodedNotEmpty(c.form, c.shared, c.tracks);
    assert s[2..] == c.shared + EncodeTracks(c.form, c.shared, c.tracks);
    assert s[2..2 + |c.shared|] == c.shared;
    assert s[2 + |c.shared|..] == EncodeTracks(c.form, c.shared, c.tracks);
  }

  lemma ParsedIsEncoded(frameType: FrameType, s: bytes)
    requires Parse(frameType, s).Some?
    ensures ContainerOk(frameType, Parse(frameType, s).value)
    ensures s == Encode(frameType, Parse(frameType, s).value)
  {
    hide TracksOf, EncodeTracks, Announces, TracksOk, FormOf, FormCode;
    var c := Parse(frameType, s).value;
    var n := |c.shared|;
    FormByte(s[1]);
    TracksAreEncoded(c.form, c.shared, s[2 + n..], 0);
    assert s == [s[0], s[1]] + (s[2..2 + n] + s[2 + n..]);
  }

  lemma FormByte(b: byte)
    ensures FormOf(b).Some? ==> b == 16 * FormCode(FormOf(b).value) + b % 16
  {
  }

  // The source's walk

  /** What a visitor is given. */
  datatype TrackSlice = TrackSlice(trackId: byte, packetType: byte, fourcc: bytes, videoFrameType: byte, payload: bytes)

  function VideoFrameType(frameType: FrameType, first: byte): byte {
    if frameType == Video then first / 16 % 8 else 0
  }

  /** The slices of a container's tracks, in order. */
  function Slices(frameType: FrameType, c: Container): seq<TrackSlice> {
    SlicesOf(c.packetType, VideoFrameType(frameType, c.first), c.tracks)
  }

  function SlicesOf(packetType: byte, videoFrameType: byte, tracks: seq<Track>): (r: seq<TrackSlice>)
    ensures |r| == |tracks|
  {
    seq(|tracks|, i requires 0 <= i < |tracks| => SliceOf(packetType, videoFrameType, tracks[i]))
  }

  function SliceOf(packetType: byte, videoFrameType: byte, t: Track): TrackSlice {
    TrackSlice(t.id, packetType, t.fourcc, videoFrameType, t.body)
  }

  function IsMultitrackContainer(frameType: FrameType, payload: bytes): (r: bool)
    ensures r <==> payload != [] && Announces(frameType, payload[0])
  {
    if payload == [] || payload[0] / 128 == 0 then false
    else
      match frameType
      case Video => payload[0] / 16 % 8 != VIDEO_FRAME_TYPE_COMMAND && payload[0] % 16 == VIDEO_MULTITRACK
      case Audio => payload[0] / 16 == 0x09 && payload[0] % 16 == AUDIO_MULTITRACK
      case _ => false
  }

  /**
   True exactly for a first byte that can begin a container of this kind. It is
   never a legacy tag: not the audio formats that also set the top bit, not a
   video command, not data, and never both audio and video.
   */
  lemma ContainersAreNotLegacy(frameType: FrameType, payload: bytes)
    ensures IsMultitrackContainer(frameType, payload)
       <==> exists c :: ContainerOk(frameType, c) && Encode(frameType, c)[..1] == payload[..Min(1, |payload|)]
    ensures IsMultitrackContainer(frameType, payload) ==>
              && payload[0] >= 0x80
              && (frameType == Audio ==> payload[0] / 16 !in {8, 10, 11, 14})
              && (frameType == Video ==> payload[0] / 16 % 8 != VIDEO_FRAME_TYPE_COMMAND)
              && frameType != Script && frameType != Metadata
    ensures !(IsMultitrackContainer(Audio, payload) && IsMultitrackContainer(Video, payload))
  {
    hide EncodeTracks;
    if IsMultitrackContainer(frameType, payload) {
      var cc: bytes := [0, 0, 0, 0];
      var c := Container(payload[0], OneTrack, 0, cc, [Track(0, cc, [])]);
      assert TrackOk(OneTrack, cc, c.tracks[0]);
      assert ContainerOk(frameType, c);
      assert Encode(frameType, c)[..1] == [payload[0]] == payload[..1];
    }
    forall c | ContainerOk(frameType, c) && Encode(frameType, c)[..1] == payload[..Min(1, |payload|)]
      ensures IsMultitrackContainer(frameType, payload)
    {
      assert Encode(frameType, c)[..1] == [c.first];
      assert payload[..1][0] == payload[0];
    }
  }

  /** Track id, body position and body length of the track whose id is at `pos`. */
  function ReadTrackHeader(payload: bytes, pos: nat, oneTrack: bool): (r: Option<(byte, nat, nat)>)
    ensures r.Some? ==> pos < r.value.1 && r.value.1 + r.value.2 <= |payload|
    ensures r.Some? && oneTrack ==> r.value.1 + r.value.2 == |payload|
  {
    if pos >= |payload| then None
    else if oneTrack then Some((payload[pos], pos + 1, |payload| - (pos + 1)))
    else if pos + 4 > |payload| then None
    else
      var size := FromBe24(payload[pos + 1..pos + 4]);
      if pos + 4 + size <= |payload| then Some((payload[pos], pos + 4, size)) else None
  }

  /** Reading at a position is parsing the bytes from there on. */
  lemma HeaderIsNextBody(payload: bytes, pos: nat, form: Form, fourcc: bytes)
    requires pos <= |payload|
    ensures match ReadTrackHeader(payload, pos, form.OneTrack?)
            case None => NextBody(form, fourcc, payload[pos..]) == None
            case Some((id, body, len)) =>
              NextBody(form, fourcc, payload[pos..])
              == Some((Track(id, fourcc, payload[body..body + len]), payload[body + len..]))
  {
    var s := payload[pos..];
    if pos + 4 <= |payload| && !form.OneTrack? {
      assert s[1..][..3] == payload[pos + 1..pos + 4];
      SameBe24(s[1..], payload[pos + 1..pos + 4]);
      var n := FromBe24(s[1..]);
      if 4 + n <= |s| {
        assert s[4..4 + n] == payload[pos + 4..pos + 4 + n];
        assert s[4 + n..] == payload[pos + 4 + n..];
      }
    } else if pos < |payload| {
      assert s[1..] == payload[pos + 1..];
      assert payload[pos + 1..|payload|] == payload[pos + 1..];
      assert payload[|payload|..] == [];
    }
  }

  lemma SameBe24(s: bytes, t: bytes)
    requires |s| >= 3 && t == s[..3]
    ensures FromBe24(s) == FromBe24(t)
  {
    assert t[..3] == t;
    FieldsAgree(s, t, 3);
  }

  lemma PrependNothing(back: Option<seq<Track>>)
    ensures Prepend([], back) == back
  {
    if back.Some? {
      assert [] + back.value == back.value;
    }
  }

  /** What one more turn of the walk knows about the whole of it. */
  lemma TracksUnfold(form: Form, shared: bytes, s: bytes, count: nat, seen: seq<Track>)
    ensures Prepend(seen, TracksOf(form, shared, s, count))
         == match NextTrack(form, shared, s) {
              case None => None
              case Some((t, rest)) =>
                if count >= MAX_MULTITRACK_SUBTRACKS then None
                else if rest == [] then Some(seen + [t])
                else Prepend(seen + [t], TracksOf(form, shared, rest, count + 1))
            }
  {
    hide NextTrack;
    if NextTrack(form, shared, s).Some? {
      var (t, rest) := NextTrack(form, shared, s).value;
      PrependTwice(seen, t, TracksOf(form, shared, rest, count + 1));
    }
  }

  lemma PrependTwice(front: seq<Track>, t: Track, back: Option<seq<Track>>)
    ensures Prepend(front, Prepend([t], back)) == Prepend(front + [t], back)
  {
    if back.Some? {
      assert front + ([t] + back.value) == (front + [t]) + back.value;
    }
  }

  /** One more track visited. */
  lemma VisitOne(packetType: byte, videoFrameType: byte, seen: seq<Track>, t: Track)
    ensures SlicesOf(packetType, videoFrameType, seen + [t])
         == SlicesOf(packetType, videoFrameType, seen) + [SliceOf(packetType, videoFrameType, t)]
  {
  }

  /**
   Walks the tracks from `start` on, visiting each as it is parsed. If it
   succeeds it has visited all of them; a later malformed track makes it fail
   after some visits.
   */
  method WalkFrom(payload: bytes, start: nat, form: Form, shared: bytes, packetType: byte, videoFrameType: byte)
    returns (ok: bool, visited: seq<TrackSlice>)
    requires start <= |payload|
    ensures ok <==> TracksOf(form, shared, payload[start..], 0).Some?
    ensures ok ==> visited == SlicesOf(packetType, videoFrameType, TracksOf(form, shared, payload[start..], 0).value)
  {
    hide NextBody, ReadTrackHeader, Prepend, SlicesOf;
    var pos, count := start, 0;
    ghost var seen: seq<Track> := [];
    ghost var goal := TracksOf(form, shared, payload[start..], 0);
    visited := [];
    PrependNothing(goal);
    while true
      invariant pos <= |payload| && count == |seen|
      invariant visited == SlicesOf(packetType, videoFrameType, seen)
      invariant goal == Prepend(seen, TracksOf(form, shared, payload[pos..], count))
      decreases |payload| - pos
    {
      ghost var s := payload[pos..];
      ghost var here := NextTrack(form, shared, s);
      TracksUnfold(form, shared, s, count, seen);
      var fourcc := shared;
      if form.ManyTracksManyCodecs? {
        if pos + 4 > |payload| {
          return false, visited;
        }
        fourcc := payload[pos..pos + 4];
        assert fourcc == s[..4] && payload[pos + 4..] == s[4..];
        pos := pos + 4;
      }
      HeaderIsNextBody(payload, pos, form, fourcc);
      var header := ReadTrackHeader(payload, pos, form.OneTrack?);
      if header.None? || count >= MAX_MULTITRACK_SUBTRACKS {
        return false, visited;
      }
      var (id, body, len) := header.value;
      ghost var t := Track(id, fourcc, payload[body..body + len]);
      assert here == Some((t, payload[body + len..]));
      VisitOne(packetType, videoFrameType, seen, t);
      count := count + 1;
      visited := visited + [TrackSlice(id, packetType, fourcc, videoFrameType, payload[body..body + len])];
      pos := body + len;
      seen := seen + [t];
      if form.OneTrack? || pos == |payload| {
        break;
      }
    }
    ok := pos == |payload| && count > 0;
  }

  /** The walk over a whole payload: it succeeds exactly on containers, and then visits every track. */
  method WalkTracks(frameType: FrameType, payload: bytes) returns (ok: bool, visited: seq<TrackSlice>)
    ensures ok <==> Parse(frameType, payload).Some?
    ensures ok ==> visited == Slices(frameType, Parse(frameType, payload).value)
  {
    hide TracksOf, SlicesOf;
    if !IsMultitrackContainer(frameType, payload) || |payload| < 3 {
      return false, [];
    }
    var form := FormOf(payload[1]);
    if form.None? {
      return false, [];
    }
    var packetType, videoFrameType := payload[1] % 16, VideoFrameType(frameType, payload[0]);
    if form.value.ManyTracksManyCodecs? {
      assert payload[2..2] == [];
      ok, visited := WalkFrom(payload, 2, form.value, [], packetType, videoFrameType);
    } else {
      if |payload| < 6 {
        return false, [];
      }
      ok, visited := WalkFrom(payload, 6, form.value, payload[2..6], packetType, videoFrameType);
    }
  }

  /**
   All or nothing: true if and only if the payload encodes a container of 1 to
   4096 tracks in one of the three forms, and then exactly its tracks are
   visited, in order; otherwise nothing is.
   */
  method ForeachTrack(frameType: FrameType, payload: bytes) returns (ok: bool, visited: seq<TrackSlice>)
    ensures ok <==> exists c :: ContainerOk(frameType, c) && payload == Encode(frameType, c)
    ensures !ok ==> visited == []
    ensures forall c :: ContainerOk(frameType, c) && payload == Encode(frameType, c) ==> visited == Slices(frameType, c)
  {
    hide Parse, Encode, ContainerOk, Slices;
    ghost var parsed := Parse(frameType, payload);
    forall c | ContainerOk(frameType, c) && payload == Encode(frameType, c)
      ensures parsed == Some(c)
    {
      ParseEncoded(frameType, c);
    }
    if parsed.Some? {
      ParsedIsEncoded(frameType, payload);
    }
    var valid, _ := WalkTracks(frameType, payload);
    if !valid {
      return false, [];
    }
    ok, visited := WalkTracks(frameType, payload);
  }
}
