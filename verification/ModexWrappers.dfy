/**
 E-RTMP ModEx wrappers: the peeling loop of src/media/modex.rs and the
 one-layer reader and writer of src/ertmp/modex.rs. Wrapping is defined on
 layers; peeling is proved to be exactly its inverse.
 */
module ModexWrappers {
  import opened Bytes
  import opened MediaOut

  const PACKET_TYPE_MODEX: byte := 7
  const MAX_MODEX_CHAIN_LAYERS: nat := 32
  const AUDIO_EX_HEADER: nat := 9

  type nibble = x: int | 0 <= x < 16

  // The grammar

  /** One layer: its type, its data, and whether its size is in the extended form. */
  datatype Layer = Layer(modexType: nibble, data: bytes, extended: bool)

  predicate LayerOk(l: Layer) {
    1 <= |l.data| <= if l.extended then 0x1_0000 else 255
  }

  function EncodeLayer(l: Layer, next: nibble): bytes
    requires LayerOk(l)
  {
    (if l.extended then [0xFF] + Be16(|l.data| - 1) else [|l.data| - 1]) + (l.data + [16 * l.modexType + next])
  }

  predicate LayersOk(layers: seq<Layer>) {
    forall i :: 0 <= i < |layers| ==> LayerOk(layers[i])
  }

  /** A chain of layers, each announcing another one and the last announcing packet type `next`. */
  function EncodeLayers(layers: seq<Layer>, next: nibble): bytes
    requires layers != [] && LayersOk(layers)
  {
    if |layers| == 1 then EncodeLayer(layers[0], next)
    else EncodeLayer(layers[0], PACKET_TYPE_MODEX) + EncodeLayers(layers[1..], next)
  }

  /** A payload that may be wrapped: not empty, and not itself of the ModEx packet type. */
  predicate Wrappable(p: bytes) {
    p != [] && p[0] % 16 != PACKET_TYPE_MODEX
  }

  /** The payload behind the layers, with the header nibble kept and the packet type moved into the last layer. */
  function Wrap(p: bytes, layers: seq<Layer>): bytes
    requires Wrappable(p) && layers != [] && LayersOk(layers)
  {
    [p[0] / 16 * 16 + PACKET_TYPE_MODEX] + (EncodeLayers(layers, p[0] % 16) + p[1..])
  }

  // Reading layers off the front of a sequence

  datatype Read = Read(layer: Layer, next: nibble, rest: bytes)

  function NextLayer(s: bytes): (r: Option<Read>)
    ensures r.Some? ==> |r.value.rest| < |s|
  {
    if s == [] then None
    else if s[0] == 0xFF then
      if |s| < 3 then None else TakeLayer(FromBe16(s[1..]) + 1, true, s[3..])
    else TakeLayer(s[0] + 1, false, s[1..])
  }

  /** Data of `n` bytes and the option byte. */
  function TakeLayer(n: nat, extended: bool, s: bytes): (r: Option<Read>)
    ensures r.Some? ==> |r.value.rest| < |s|
  {
    if |s| <= n then None
    else Some(Read(Layer(s[n] / 16, s[..n], extended), s[n] % 16, s[n + 1..]))
  }

  /** Peels a chain of layers, at most 32 in all with the `seen` before: the packet type and body behind it. */
  function PeelLayers(s: bytes, seen: nat): Option<(nibble, bytes)>
    decreases |s|
  {
    if seen >= MAX_MODEX_CHAIN_LAYERS then None
    else
      match NextLayer(s)
      case None => None
      case Some(Read(_, next, rest)) =>
        if next != PACKET_TYPE_MODEX then Some((next, rest)) else PeelLayers(rest, seen + 1)
  }

  /** Whether a first byte announces a ModEx wrapper that may be peeled. */
  predicate Announces(frameType: FrameType, first: byte) {
    && first >= 0x80 && first % 16 == PACKET_TYPE_MODEX
    && (frameType == Audio ==> first / 16 == AUDIO_EX_HEADER)
  }

  /** The payload without its wrappers, if it has some and they are well formed. */
  function Peel(frameType: FrameType, payload: bytes): Option<bytes> {
    if payload == [] || !Announces(frameType, payload[0]) then None
    else
      match PeelLayers(payload[1..], 0)
      case None => None
      case Some((next, rest)) => Some([payload[0] / 16 * 16 + next] + rest)
  }

  // Peeling inverts wrapping

  lemma NextOfEncoded(l: Layer, next: nibble, rest: bytes)
    requires LayerOk(l)
    ensures NextLayer(EncodeLayer(l, next) + rest) == Some(Read(l, next, rest))
  {
    hide Be16, FromBe16, TakeLayer;
    var s := EncodeLayer(l, next) + rest;
    var n := |l.data|;
    var tail := l.data + [16 * l.modexType + next] + rest;
    TakeOfEncoded(l, next, rest);
    if l.extended {
      assert s[1..] == Be16(n - 1) + tail;
      Be16Decodes(n - 1, tail);
      assert s[3..] == tail;
    } else {
      assert s[1..] == tail;
    }
  }

  lemma TakeOfEncoded(l: Layer, next: nibble, rest: bytes)
    ensures TakeLayer(|l.data|, l.extended, l.data + [16 * l.modexType + next] + rest) == Some(Read(l, next, rest))
  {
    var n, option := |l.data|, 16 * l.modexType + next;
    var tail := l.data + [option] + rest;
    assert tail[..n] == l.data && tail[n] == option && tail[n + 1..] == rest;
  }

  lemma NextIsEncoded(s: bytes)
    requires NextLayer(s).Some?
    ensures var Read(l, next, rest) := NextLayer(s).value;
            LayerOk(l) && s == EncodeLayer(l, next) + rest
  {
    hide Be16, FromBe16, TakeLayer;
    if s[0] == 0xFF {
      Be16Encodes(s[1..]);
      assert s[1..][..2] == s[1..3];
      TakeIsEncoded(FromBe16(s[1..]) + 1, true, s[3..]);
      assert s == [0xFF] + s[1..3] + s[3..];
    } else {
      TakeIsEncoded(s[0] + 1, false, s[1..]);
      assert s == [s[0]] + s[1..];
    }
  }

  lemma TakeIsEncoded(n: nat, extended: bool, s: bytes)
    requires TakeLayer(n, extended, s).Some?
    ensures var Read(l, next, rest) := TakeLayer(n, extended, s).value;
            |l.data| == n && l.extended == extended && s == (l.data + [16 * l.modexType + next]) + rest
  {
    assert s == s[..n] + [s[n]] + s[n + 1..];
  }

  /** A chain is peeled if it and what came before are at most 32 layers, and not at all otherwise. */
  lemma {:induction false} PeelsEncoded(layers: seq<Layer>, next: nibble, rest: bytes, seen: nat)
    requires layers != [] && LayersOk(layers) && next != PACKET_TYPE_MODEX
    ensures PeelLayers(EncodeLayers(layers, next) + rest, seen)
            == if seen + |layers| <= MAX_MODEX_CHAIN_LAYERS then Some((next, rest)) else None
    decreases |layers|
  {
    hide EncodeLayer, NextLayer;
    if |layers| == 1 {
      NextOfEncoded(layers[0], next, rest);
    } else {
      var tail := EncodeLayers(layers[1..], next) + rest;
      assert EncodeLayers(layers, next) + rest == EncodeLayer(layers[0], PACKET_TYPE_MODEX) + tail;
      NextOfEncoded(layers[0], PACKET_TYPE_MODEX, tail);
      PeelsEncoded(layers[1..], next, rest, seen + 1);
    }
  }

  lemma {:induction false} PeeledIsEncoded(s: bytes, seen: nat) returns (layers: seq<Layer>)
    requires PeelLayers(s, seen).Some?
    ensures var (next, rest) := PeelLayers(s, seen).value;
            && layers != [] && LayersOk(layers) && seen + |layers| <= MAX_MODEX_CHAIN_LAYERS
            && next != PACKET_TYPE_MODEX && s == EncodeLayers(layers, next) + rest
    decreases |s|
  {
    hide EncodeLayer, NextLayer;
    NextIsEncoded(s);
    var Read(l, next, rest) := NextLayer(s).value;
    if next != PACKET_TYPE_MODEX {
      layers := [l];
    } else {
      var others := PeeledIsEncoded(rest, seen + 1);
      layers := [l] + others;
      assert layers[1..] == others;
      var (last, body) := PeelLayers(s, seen).value;
      assert s == EncodeLayer(l, next) + (EncodeLayers(others, last) + body);
    }
  }

  /** Wrapping in up to 32 layers is undone; a longer chain is not peeled at all. */
  lemma PeelWrapped(frameType: FrameType, p: bytes, layers: seq<Layer>)
    requires Wrappable(p) && layers != [] && LayersOk(layers)
    requires p[0] >= 0x80 && (frameType == Audio ==> p[0] / 16 == AUDIO_EX_HEADER)
    ensures Peel(frameType, Wrap(p, layers)) == if |layers| <= MAX_MODEX_CHAIN_LAYERS then Some(p) else None
  {
    hide EncodeLayers, PeelLayers;
    var w := Wrap(p, layers);
    assert w[1..] == EncodeLayers(layers, p[0] % 16) + p[1..];
    PeelsEncoded(layers, p[0] % 16, p[1..], 0);
    assert w[0] / 16 == p[0] / 16 && w[0] % 16 == PACKET_TYPE_MODEX;
    assert p == [p[0]] + p[1..];
  }

  /** Whatever is peeled was wrapped in 1 to 32 layers, and the result is what was wrapped. */
  lemma PeeledWasWrapped(frameType: FrameType, payload: bytes) returns (layers: seq<Layer>)
    requires Peel(frameType, payload).Some?
    ensures var p := Peel(frameType, payload).value;
            && Wrappable(p) && 1 <= |layers| <= MAX_MODEX_CHAIN_LAYERS && LayersOk(layers)
            && payload == Wrap(p, layers)
  {
    hide EncodeLayers, PeelLayers;
    layers := PeeledIsEncoded(payload[1..], 0);
    var p := Peel(frameType, payload).value;
    assert payload == [payload[0]] + payload[1..];
    assert p[1..] == PeelLayers(payload[1..], 0).value.1;
  }

  /** Peeling succeeds with `p` if and only if the payload is `p` behind 1 to 32 layers. */
  lemma PeelIsExact(frameType: FrameType, payload: bytes, p: bytes)
    requires payload != [] && Announces(frameType, payload[0])
    ensures Peel(frameType, payload) == Some(p)
            <==> exists layers :: Wrappable(p) && 1 <= |layers| <= MAX_MODEX_CHAIN_LAYERS && LayersOk(layers)
                                  && payload == Wrap(p, layers)
  {
    hide Peel, EncodeLayers, Announces;
    if Peel(frameType, payload) == Some(p) {
      var layers := PeeledWasWrapped(frameType, payload);
      assert Wrappable(p) && 1 <= |layers| <= MAX_MODEX_CHAIN_LAYERS && LayersOk(layers) && payload == Wrap(p, layers);
    }
    forall layers | Wrappable(p) && 1 <= |layers| <= MAX_MODEX_CHAIN_LAYERS && LayersOk(layers) && payload == Wrap(p, layers)
      ensures Peel(frameType, payload) == Some(p)
    {
      SameKind(frameType, p, layers);
      PeelWrapped(frameType, p, layers);
    }
  }

  /** Wrapping keeps the high nibble that says whether the payload may be peeled. */
  lemma SameKind(frameType: FrameType, p: bytes, layers: seq<Layer>)
    requires Wrappable(p) && layers != [] && LayersOk(layers) && Announces(frameType, Wrap(p, layers)[0])
    ensures p[0] >= 0x80 && (frameType == Audio ==> p[0] / 16 == AUDIO_EX_HEADER)
  {
    hide EncodeLayers;
  }

  // The source's parser and loop over positions

  datatype ModexLayer = ModexLayer(modexType: nibble, nextPacketType: nibble, dataStart: nat, dataEnd: nat, nextPos: nat)

  function ParseModexLayer(payload: bytes, pos: nat): (r: Option<ModexLayer>)
    ensures r.Some? ==> pos < r.value.dataStart < r.value.dataEnd < r.value.nextPos <= |payload|
  {
    if pos >= |payload| then None
    else if payload[pos] == 0xFF then
      if pos + 2 >= |payload| then None
      else LayerAt(payload, pos + 3, FromBe16(payload[pos + 1..pos + 3]) + 1)
    else LayerAt(payload, pos + 1, payload[pos] + 1)
  }

  function LayerAt(payload: bytes, start: nat, size: nat): (r: Option<ModexLayer>)
    requires size > 0
    ensures r.Some? ==> r.value.dataStart == start < r.value.dataEnd < r.value.nextPos <= |payload|
  {
    if start + size >= |payload| then None
    else
      var option := payload[start + size];
      Some(ModexLayer(option / 16, option % 16, start, start + size, start + size + 1))
  }

  /** Reading at a position is reading the bytes from there on. */
  lemma ParseIsNextLayer(payload: bytes, pos: nat)
    requires pos <= |payload|
    ensures match ParseModexLayer(payload, pos)
            case None => NextLayer(payload[pos..]) == None
            case Some(l) =>
              && NextLayer(payload[pos..]).Some?
              && var Read(layer, next, rest) := NextLayer(payload[pos..]).value;
                 && layer.modexType == l.modexType && layer.data == payload[l.dataStart..l.dataEnd]
                 && next == l.nextPacketType && rest == payload[l.nextPos..]
  {
    var s := payload[pos..];
    if pos + 2 < |payload| && payload[pos] == 0xFF {
      assert s[1..][..2] == payload[pos + 1..pos + 3][..2];
      FieldsAgree(s[1..], payload[pos + 1..pos + 3], 2);
      assert s[3..] == payload[pos + 3..];
      TakeIsLayerAt(payload, pos + 3, FromBe16(s[1..]) + 1, true);
    } else if pos < |payload| && payload[pos] != 0xFF {
      assert s[1..] == payload[pos + 1..];
      TakeIsLayerAt(payload, pos + 1, payload[pos] + 1, false);
    }
  }

  lemma TakeIsLayerAt(payload: bytes, start: nat, size: nat, extended: bool)
    requires start <= |payload| && size > 0
    ensures match LayerAt(payload, start, size)
            case None => TakeLayer(size, extended, payload[start..]) == None
            case Some(l) =>
              TakeLayer(size, extended, payload[start..])
              == Some(Read(Layer(l.modexType, payload[start..l.dataEnd], extended), l.nextPacketType, payload[l.nextPos..]))
  {
    var s := payload[start..];
    if start + size < |payload| {
      assert s[..size] == payload[start..start + size];
      assert s[size + 1..] == payload[start + size + 1..];
      assert s[size] == payload[start + size];
    }
  }

  predicate CapsAllowModex(capsExMask: u32) {
    capsExMask / 4 % 2 == 1
  }

  /** What the relay hands to codec detection. */
  function Normalized(payload: bytes, capsExMask: u32, frameType: FrameType): bytes {
    if !CapsAllowModex(capsExMask) then payload
    else
      match Peel(frameType, payload)
      case None => payload
      case Some(p) => p
  }

  /** A wrapper chain is peeled completely or the payload is left exactly as it was. */
  method NormalizeModexPayload(payload: bytes, capsExMask: u32, frameType: FrameType) returns (r: bytes)
    ensures r == Normalized(payload, capsExMask, frameType)
  {
    hide NextLayer, ParseModexLayer;
    if payload == [] || !CapsAllowModex(capsExMask) || payload[0] < 0x80 || payload[0] % 16 != PACKET_TYPE_MODEX {
      return payload;
    }
    if frameType == Audio && payload[0] / 16 != AUDIO_EX_HEADER {
      return payload;
    }
    var pos, header, layers := 1, payload[0], 0;
    while true
      invariant 1 <= pos <= |payload| && header / 16 == payload[0] / 16
      invariant PeelLayers(payload[1..], 0) == PeelLayers(payload[pos..], layers)
      decreases |payload| - pos
    {
      if layers >= MAX_MODEX_CHAIN_LAYERS {
        return payload;
      }
      ParseIsNextLayer(payload, pos);
      layers := layers + 1;
      var layer := ParseModexLayer(payload, pos);
      if layer.None? {
        return payload;
      }
      pos := layer.value.nextPos;
      header := header / 16 * 16 + layer.value.nextPacketType;
      if layer.value.nextPacketType != PACKET_TYPE_MODEX {
        break;
      }
    }
    return [header] + payload[pos..];
  }

  /** Normalising twice is normalising once. */
  lemma NormalizedTwice(payload: bytes, capsExMask: u32, frameType: FrameType)
    ensures var once := Normalized(payload, capsExMask, frameType);
            Normalized(once, capsExMask, frameType) == once
  {
    hide EncodeLayers, PeelLayers;
    if CapsAllowModex(capsExMask) && Peel(frameType, payload).Some? {
      var layers := PeeledWasWrapped(frameType, payload);
    }
  }

  // One layer at a time: src/ertmp/modex.rs

  datatype ModexType = TimestampOffsetNano | Nop

  datatype Modex = Modex(modexType: ModexType, offset: u64, nextPacketType: byte)

  /** Parses one layer; also the number of bytes it takes. */
  function ModexParsePrefix(data: bytes): Result<(Modex, nat)> {
    match ParseModexLayer(data, 0)
    case None => Err(Io)
    case Some(l) =>
      if l.modexType != 0 then Ok((Modex(Nop, 0, l.nextPacketType), l.nextPos))
      else if l.dataEnd - l.dataStart < 3 then Err(Protocol)
      else Ok((Modex(TimestampOffsetNano, FromBe24(data[l.dataStart..l.dataEnd]), l.nextPacketType), l.nextPos))
  }

  /** The layer `ModexWrite` writes for a timestamp offset. */
  function WrittenLayer(m: Modex): Layer {
    Layer(0, Be24(m.offset % 0x100_0000), false)
  }

  /** Writes a layer at the front of `buf`, or nothing. */
  method ModexWrite(m: Modex, buf: array<byte>) returns (n: nat)
    modifies buf
    ensures n == if m.modexType.Nop? || buf.Length < 5 then 0 else 5
    ensures n > 0 ==> buf[..5] == EncodeLayer(WrittenLayer(m), m.nextPacketType % 16)
    ensures buf[n..] == old(buf[n..])
  {
    if m.modexType.Nop? {
      return 0;
    }
    var offset := m.offset % 0x100_0000;
    var data := Be24(offset);
    var total := 1 + |data| + 1;
    if buf.Length < total {
      return 0;
    }
    buf[0] := |data| - 1;
    buf[1], buf[2], buf[3] := data[0], data[1], data[2];
    buf[4] := m.nextPacketType % 16;
    assert buf[..5] == [2] + (data + [m.nextPacketType % 16]);
    return total;
  }

  /** On any layer the one-layer parser takes exactly the bytes of that layer and finds the packet type behind it. */
  lemma PrefixOfLayer(l: Layer, next: nibble, rest: bytes)
    requires LayerOk(l)
    ensures ModexParsePrefix(EncodeLayer(l, next) + rest)
         == if l.modexType != 0 then Ok((Modex(Nop, 0, next), |EncodeLayer(l, next)|))
            else if |l.data| < 3 then Err(Protocol)
            else Ok((Modex(TimestampOffsetNano, FromBe24(l.data), next), |EncodeLayer(l, next)|))
  {
    hide EncodeLayer, NextLayer, ParseModexLayer, FromBe24;
    var s := EncodeLayer(l, next) + rest;
    NextOfEncoded(l, next, rest);
    ParseIsNextLayer(s, 0);
    assert s[0..] == s;
  }

  /** Parsing what was written gives the same extension back, if and only if it fits the wire format. */
  lemma WriteRoundTrip(m: Modex, rest: bytes)
    requires m.modexType == TimestampOffsetNano
    ensures var wire := EncodeLayer(WrittenLayer(m), m.nextPacketType % 16);
            ModexParsePrefix(wire + rest) == Ok((m, 5)) <==> m.offset < 0x100_0000 && m.nextPacketType < 16
  {
    hide ModexParsePrefix, Be24, FromBe24;
    var offset := m.offset % 0x100_0000;
    Be24Decodes(offset, []);
    assert Be24(offset) + [] == Be24(offset);
    PrefixOfLayer(WrittenLayer(m), m.nextPacketType % 16, rest);
  }

  /** Following a chain with the one-layer parser, up to the same limit. */
  function FollowPrefixes(s: bytes, seen: nat): Option<(nibble, bytes)>
    decreases |s|
  {
    if seen >= MAX_MODEX_CHAIN_LAYERS then None
    else
      match ModexParsePrefix(s)
      case Err(_) => None
      case Ok((m, n)) =>
        if m.nextPacketType != PACKET_TYPE_MODEX then Some((m.nextPacketType, s[n..]))
        else FollowPrefixes(s[n..], seen + 1)
  }

  /** The one-layer parser refuses a timestamp that is too short; the peeling loop does not look. */
  predicate Readable(l: Layer) {
    l.modexType != 0 || |l.data| >= 3
  }

  /** The two parsers agree on a chain if and only if every layer of it is readable. */
  lemma {:induction false} FollowAgrees(layers: seq<Layer>, next: nibble, rest: bytes, seen: nat)
    requires layers != [] && LayersOk(layers) && next != PACKET_TYPE_MODEX
    requires seen + |layers| <= MAX_MODEX_CHAIN_LAYERS
    ensures var s := EncodeLayers(layers, next) + rest;
            && PeelLayers(s, seen) == Some((next, rest))
            && FollowPrefixes(s, seen) == if forall i :: 0 <= i < |layers| ==> Readable(layers[i])
                                          then PeelLayers(s, seen) else None
    decreases |layers|
  {
    hide ModexParsePrefix, PeelLayers;
    var s := EncodeLayers(layers, next) + rest;
    PeelsEncoded(layers, next, rest, seen);
    var l, others := layers[0], layers[1..];
    if others == [] {
      PrefixOfLayer(l, next, rest);
      assert s[|EncodeLayer(l, next)|..] == rest;
    } else {
      var tail := EncodeLayers(others, next) + rest;
      var first := EncodeLayer(l, PACKET_TYPE_MODEX);
      assert s == first + tail;
      assert s[|first|..] == tail;
      PrefixOfLayer(l, PACKET_TYPE_MODEX, tail);
      FollowAgrees(others, next, rest, seen + 1);
      assert forall i :: 0 <= i < |others| ==> others[i] == layers[i + 1];
      assert (forall i :: 0 <= i < |layers| ==> Readable(layers[i]))
        <==> Readable(l) && forall i :: 0 <= i < |others| ==> Readable(others[i]);
    }
  }

  /** What writing the extensions one after another puts into a buffer. */
  function WrittenWire(written: seq<Modex>): bytes {
    if written == [] then []
    else EncodeLayer(WrittenLayer(written[0]), written[0].nextPacketType % 16) + WrittenWire(written[1..])
  }

  /** Timestamp offsets that announce each other, and at the end packet type `next`. */
  predicate Chained(written: seq<Modex>, next: nibble) {
    && written != []
    && (forall i :: 0 <= i < |written| ==> written[i].modexType == TimestampOffsetNano)
    && (forall i :: 0 <= i < |written| - 1 ==> written[i].nextPacketType % 16 == PACKET_TYPE_MODEX)
    && written[|written| - 1].nextPacketType % 16 == next
  }

  /** Extensions read one after another, and what follows them. */
  function ReadAll(s: bytes, n: nat): Option<(seq<Modex>, bytes)> {
    if n == 0 then Some(([], s))
    else
      match ModexParsePrefix(s)
      case Err(_) => None
      case Ok((m, size)) =>
        match ReadAll(s[size..], n - 1)
        case None => None
        case Some((ms, rest)) => Some(([m] + ms, rest))
  }

  /** An extension as the wire can hold it. */
  function OnWire(m: Modex): Modex {
    m.(offset := m.offset % 0x100_0000, nextPacketType := m.nextPacketType % 16)
  }

  function OnWireAll(written: seq<Modex>): seq<Modex> {
    seq(|written|, i requires 0 <= i < |written| => OnWire(written[i]))
  }

  /** Reading back gives every offset and packet type, up to the width of its field. */
  lemma {:induction false} ReadsWritten(written: seq<Modex>, rest: bytes)
    requires forall i :: 0 <= i < |written| ==> written[i].modexType == TimestampOffsetNano
    ensures ReadAll(WrittenWire(written) + rest, |written|) == Some((OnWireAll(written), rest))
    decreases |written|
  {
    hide ModexParsePrefix, EncodeLayer, Be24, FromBe24;
    if written == [] {
      assert WrittenWire(written) + rest == rest;
      assert OnWireAll(written) == [];
    } else {
      var m, others := written[0], written[1..];
      var layer, next := WrittenLayer(m), m.nextPacketType % 16;
      var wire, tail := EncodeLayer(layer, next), WrittenWire(others) + rest;
      assert WrittenWire(written) + rest == wire + tail;
      PrefixOfLayer(layer, next, tail);
      Be24Decodes(m.offset % 0x100_0000, []);
      assert Be24(m.offset % 0x100_0000) + [] == Be24(m.offset % 0x100_0000);
      assert (wire + tail)[|wire|..] == tail;
      ReadsWritten(others, rest);
      assert OnWireAll(written) == [OnWire(m)] + OnWireAll(others);
    }
  }

  /** A chain of written extensions is a chain of layers. */
  lemma {:induction false} WrittenIsChain(written: seq<Modex>, next: nibble)
    requires Chained(written, next)
    ensures WrittenWire(written) == EncodeLayers(WrittenLayers(written), next)
    decreases |written|
  {
    hide EncodeLayer, WrittenLayer;
    var layers, others := WrittenLayers(written), written[1..];
    if others == [] {
      assert WrittenWire(written) == EncodeLayer(layers[0], next) + WrittenWire([]);
    } else {
      assert layers[1..] == WrittenLayers(others);
      assert others[|others| - 1] == written[|written| - 1];
      WrittenIsChain(others, next);
    }
  }

  /**
   Extensions written one after another in front of a packet are peeled to that
   packet, and read one after another they are what was written.
   */
  lemma WrittenChainPeels(frameType: FrameType, p: bytes, written: seq<Modex>)
    requires Wrappable(p) && p[0] >= 0x80 && (frameType == Audio ==> p[0] / 16 == AUDIO_EX_HEADER)
    requires |written| <= MAX_MODEX_CHAIN_LAYERS && Chained(written, p[0] % 16)
    ensures var wire := WrittenWire(written) + p[1..];
            && Peel(frameType, [p[0] / 16 * 16 + PACKET_TYPE_MODEX] + wire) == Some(p)
            && FollowPrefixes(wire, 0) == Some((p[0] % 16, p[1..]))
            && ReadAll(wire, |written|) == Some((OnWireAll(written), p[1..]))
  {
    hide Peel, EncodeLayers, FollowPrefixes, PeelLayers, ReadAll, WrittenWire, OnWireAll;
    var layers := WrittenLayers(written);
    WrittenIsChain(written, p[0] % 16);
    PeelWrapped(frameType, p, layers);
    FollowAgrees(layers, p[0] % 16, p[1..], 0);
    ReadsWritten(written, p[1..]);
  }

  function WrittenLayers(written: seq<Modex>): (layers: seq<Layer>)
    ensures |layers| == |written| && LayersOk(layers)
    ensures forall i :: 0 <= i < |layers| ==> Readable(layers[i])
  {
    seq(|written|, i requires 0 <= i < |written| => WrittenLayer(written[i]))
  }
}
