/**
 Skipping AMF0 values, as src/amf/amf0.rs does it: recursive over containers, at
 most 32 deep and 256 members wide. The grammar is a datatype of values and an
 encoder; the skipper is proved to accept exactly the encodings.
 */
module Amf0 {
  import opened Bytes
  import opened Buffers

  const MAX_SKIP_DEPTH: nat := 32
  const MAX_OBJECT_KEYS: nat := 256

  const NUMBER: byte := 0x00
  const BOOLEAN: byte := 0x01
  const STRING: byte := 0x02
  const OBJECT: byte := 0x03
  const MOVIECLIP: byte := 0x04
  const NULL: byte := 0x05
  const UNDEFINED: byte := 0x06
  const REFERENCE: byte := 0x07
  const ECMA_ARRAY: byte := 0x08
  const OBJECT_END: byte := 0x09
  const STRICT_ARRAY: byte := 0x0A
  const DATE: byte := 0x0B
  const LONG_STRING: byte := 0x0C
  const XML_DOC: byte := 0x0F
  const TYPED_OBJECT: byte := 0x10
  const AVMPLUS: byte := 0x11

  // The grammar: sections 2.2 to 2.18 of the AMF0 specification

  datatype Value =
    | Number(double: bytes)
    | Boolean(flag: byte)
    | String(text: bytes)
    | Object(members: Members)
    | MovieClip
    | Null
    | Undefined
    | Reference(index: bytes)
    | EcmaArray(count: u32, members: Members)
    | StrictArray(items: Items)
    | Date(time: bytes)
    | LongString(text: bytes)
    | XmlDoc(text: bytes)
    | TypedObject(name: bytes, members: Members)

  datatype Members = NoMember | Member(key: bytes, value: Value, others: Members)

  datatype Items = NoItem | Item(value: Value, others: Items)

  function Marker(v: Value): byte {
    match v
    case Number(_) => NUMBER
    case Boolean(_) => BOOLEAN
    case String(_) => STRING
    case Object(_) => OBJECT
    case MovieClip => MOVIECLIP
    case Null => NULL
    case Undefined => UNDEFINED
    case Reference(_) => REFERENCE
    case EcmaArray(_, _) => ECMA_ARRAY
    case StrictArray(_) => STRICT_ARRAY
    case Date(_) => DATE
    case LongString(_) => LONG_STRING
    case XmlDoc(_) => XML_DOC
    case TypedObject(_, _) => TYPED_OBJECT
  }

  function CountItems(items: Items): nat {
    if items.NoItem? then 0 else 1 + CountItems(items.others)
  }

  function CountMembers(members: Members): nat {
    if members.NoMember? then 0 else 1 + CountMembers(members.others)
  }

  /** The fields have the sizes the format gives them. */
  predicate Sized(v: Value) {
    match v
    case Number(d) => |d| == 8
    case String(t) => |t| < 0x1_0000
    case Object(m) => MembersSized(m)
    case Reference(i) => |i| == 2
    case EcmaArray(_, m) => MembersSized(m)
    case StrictArray(items) => ItemsSized(items) && CountItems(items) < U32_MODULUS
    case Date(t) => |t| == 10
    case LongString(t) => |t| < U32_MODULUS
    case XmlDoc(t) => |t| < U32_MODULUS
    case TypedObject(n, m) => |n| < 0x1_0000 && MembersSized(m)
    case _ => true
  }

  predicate MembersSized(m: Members) {
    m.Member? ==> |m.key| < 0x1_0000 && Sized(m.value) && MembersSized(m.others)
  }

  predicate ItemsSized(items: Items) {
    items.Item? ==> Sized(items.value) && ItemsSized(items.others)
  }

  /** The value, found inside `depth` containers, is nested and populated within the skipper's limits. */
  predicate Within(v: Value, depth: nat) {
    match v
    case Object(m) => depth < MAX_SKIP_DEPTH && MembersWithin(m, depth + 1) && CountMembers(m) <= MAX_OBJECT_KEYS
    case EcmaArray(_, m) => depth < MAX_SKIP_DEPTH && MembersWithin(m, depth + 1) && CountMembers(m) <= MAX_OBJECT_KEYS
    case StrictArray(i) => depth < MAX_SKIP_DEPTH && ItemsWithin(i, depth + 1) && CountItems(i) <= MAX_OBJECT_KEYS
    case TypedObject(_, m) => depth < MAX_SKIP_DEPTH && MembersWithin(m, depth + 1) && CountMembers(m) <= MAX_OBJECT_KEYS
    case _ => true
  }

  predicate MembersWithin(m: Members, depth: nat) {
    m.Member? ==> Within(m.value, depth) && MembersWithin(m.others, depth)
  }

  predicate ItemsWithin(items: Items, depth: nat) {
    items.Item? ==> Within(items.value, depth) && ItemsWithin(items.others, depth)
  }

  function Short(t: bytes): bytes
    requires |t| < 0x1_0000
  {
    Be16(|t|) + t
  }

  function Long(t: bytes): bytes
    requires |t| < U32_MODULUS
  {
    Be32(|t|) + t
  }

  /** The bytes after the type marker. */
  function Body(v: Value): bytes
    requires Sized(v)
    decreases v, 0
  {
    match v
    case Number(d) => d
    case Boolean(b) => [b]
    case String(t) => Short(t)
    case Object(m) => MembersBody(m)
    case Reference(i) => i
    case EcmaArray(n, m) => Be32(n) + MembersBody(m)
    case StrictArray(items) => Be32(CountItems(items)) + ItemsBody(items)
    case Date(t) => t
    case LongString(t) => Long(t)
    case XmlDoc(t) => Long(t)
    case TypedObject(n, m) => Short(n) + MembersBody(m)
    case _ => []
  }

  function MembersBody(m: Members): bytes
    requires MembersSized(m)
  {
    match m
    case NoMember => [0, 0, OBJECT_END]
    case Member(k, v, others) => Short(k) + (Encode(v) + MembersBody(others))
  }

  function ItemsBody(items: Items): bytes
    requires ItemsSized(items)
  {
    match items
    case NoItem => []
    case Item(v, others) => Encode(v) + ItemsBody(others)
  }

  function Encode(v: Value): bytes
    requires Sized(v)
    decreases v, 1
  {
    [Marker(v)] + Body(v)
  }

  // What the skipper does to the unread bytes

  /** The outcome, the bytes left unread, and how many values were entered. */
  datatype Skip = Skip(error: Option<ErrorCode>, rest: bytes, calls: nat)

  function Passed(s: bytes): Skip {
    Skip(None, s, 0)
  }

  function Stuck(e: ErrorCode, s: bytes): Skip {
    Skip(Some(e), s, 0)
  }

  function Entered(r: Skip, calls: nat): Skip {
    r.(calls := r.calls + calls)
  }

  function SkipBytes(n: nat, s: bytes): Skip {
    if |s| < n then Stuck(Io, s) else Passed(s[n..])
  }

  function SkipShort(s: bytes): (r: Skip)
    ensures |r.rest| <= |s| && r.calls == 0
    ensures r.error.None? ==> |r.rest| + 2 <= |s|
  {
    if |s| < 2 then Stuck(Io, s) else SkipBytes(FromBe16(s), s[2..])
  }

  function SkipLong(s: bytes): Skip {
    if |s| < 4 then Stuck(Io, s) else SkipBytes(FromBe32(s), s[4..])
  }

  /** Reads the type marker of a value. */
  function ReadType(s: bytes): Result<byte> {
    if s == [] then Err(Io) else if s[0] > AVMPLUS then Err(Amf) else Ok(s[0])
  }

  predicate ObjectEnds(s: bytes) {
    |s| >= 3 && s[0] == 0 && s[1] == 0 && s[2] == OBJECT_END
  }

  function SkipBody(ty: byte, depth: nat, s: bytes): (r: Skip)
    ensures |r.rest| <= |s| && 0 < r.calls <= 1 + |s| - |r.rest|
    decreases |s|, 2
  {
    Entered(
      if ty == NUMBER then SkipBytes(8, s)
      else if ty == BOOLEAN then SkipBytes(1, s)
      else if ty == STRING then SkipShort(s)
      else if ty == LONG_STRING then SkipLong(s)
      else if ty == STRICT_ARRAY then
        if depth >= MAX_SKIP_DEPTH then Stuck(Amf, s)
        else if |s| < 4 then Stuck(Io, s)
        else if FromBe32(s) > MAX_OBJECT_KEYS then Stuck(Amf, s[4..])
        else SkipItems(FromBe32(s), depth + 1, s[4..])
      else if ty == OBJECT then
        if depth >= MAX_SKIP_DEPTH then Stuck(Amf, s) else SkipMembers(0, depth + 1, s)
      else if ty == ECMA_ARRAY then
        if depth >= MAX_SKIP_DEPTH then Stuck(Amf, s)
        else if |s| < 4 then Stuck(Io, s)
        else SkipMembers(0, depth + 1, s[4..])
      else if ty == DATE then SkipBytes(10, s)
      else if ty == REFERENCE then SkipBytes(2, s)
      else if ty == NULL || ty == UNDEFINED || ty == MOVIECLIP then Passed(s)
      else if ty == XML_DOC then SkipLong(s)
      else if ty == TYPED_OBJECT then
        if depth >= MAX_SKIP_DEPTH then Stuck(Amf, s)
        else
          var name := SkipShort(s);
          if name.error.Some? then name else SkipMembers(0, depth + 1, name.rest)
      else Stuck(Unsupported, s),
      1)
  }

  /** A marked value. */
  function SkipMarked(depth: nat, s: bytes): (r: Skip)
    ensures |r.rest| <= |s| && r.calls <= |s| - |r.rest|
    ensures r.error.None? ==> |r.rest| < |s|
    decreases |s|, 0
  {
    match ReadType(s)
    case Err(e) => if s == [] then Stuck(e, s) else Stuck(e, s[1..])
    case Ok(ty) => SkipBody(ty, depth, s[1..])
  }

  function SkipItems(count: nat, depth: nat, s: bytes): (r: Skip)
    ensures |r.rest| <= |s| && r.calls <= |s| - |r.rest|
    decreases |s|, 1
  {
    if count == 0 then Passed(s)
    else
      var r := SkipMarked(depth, s);
      if r.error.Some? then r else Entered(SkipItems(count - 1, depth, r.rest), r.calls)
  }

  /** Key and value pairs up to the end marker; `keys` of them have been counted. */
  function SkipMembers(keys: nat, depth: nat, s: bytes): (r: Skip)
    ensures |r.rest| <= |s| && r.calls <= |s| - |r.rest|
    decreases |s|, 1
  {
    if ObjectEnds(s) then Passed(s[3..])
    else if keys + 1 > MAX_OBJECT_KEYS then Stuck(Amf, s)
    else
      var key := SkipShort(s);
      if key.error.Some? then key
      else
        var r := SkipMarked(depth, key.rest);
        if r.error.Some? then r else Entered(SkipMembers(keys + 1, depth, r.rest), r.calls)
  }

  function SkipValue(s: bytes): Skip {
    SkipMarked(0, s)
  }

  // Completeness, with the exact limits

  /** Success with `rest` left if `ok`, the limit error otherwise. */
  predicate Judged(r: Skip, ok: bool, rest: bytes) {
    if ok then r.error == None && r.rest == rest else r.error == Some(Amf)
  }

  lemma SkipsShort(t: bytes, rest: bytes)
    requires |t| < 0x1_0000
    ensures SkipShort(Short(t) + rest) == Passed(rest)
  {
    var s := Short(t) + rest;
    assert s == Be16(|t|) + (t + rest);
    Be16Decodes(|t|, t + rest);
    assert s[2..] == t + rest;
    assert (t + rest)[|t|..] == rest;
  }

  lemma SkipsLong(t: bytes, rest: bytes)
    requires |t| < U32_MODULUS
    ensures SkipLong(Long(t) + rest) == Passed(rest)
  {
    var s := Long(t) + rest;
    assert s == Be32(|t|) + (t + rest);
    Be32Decodes(|t|, t + rest);
    assert s[4..] == t + rest;
    assert (t + rest)[|t|..] == rest;
  }

  /** A value's bytes are skipped if it is within the limits, and refused as malformed otherwise. */
  lemma {:induction false} SkipsBody(v: Value, depth: nat, rest: bytes)
    requires Sized(v)
    ensures Judged(SkipBody(Marker(v), depth, Body(v) + rest), Within(v, depth), rest)
    decreases v, 0
  {
    hide SkipBody, SkipMembers, SkipItems, Judged;
    match v
    case Object(m) =>
      SkipsMembers(m, 0, depth + 1, rest);
      SkipsContainer(v, m, depth, rest);
    case EcmaArray(n, m) =>
      SkipsMembers(m, 0, depth + 1, rest);
      SkipsContainer(v, m, depth, rest);
    case StrictArray(items) =>
      SkipsItems(items, depth + 1, rest);
      SkipsArray(items, depth, rest);
    case TypedObject(n, m) =>
      SkipsMembers(m, 0, depth + 1, rest);
      SkipsContainer(v, m, depth, rest);
    case _ =>
      SkipsLeaf(v, depth, rest);
  }

  lemma SkipsContainer(v: Value, m: Members, depth: nat, rest: bytes)
    requires Sized(v) && (v.Object? || v.EcmaArray? || v.TypedObject?) && v.members == m
    requires Judged(SkipMembers(0, depth + 1, MembersBody(m) + rest),
                    MembersWithin(m, depth + 1) && CountMembers(m) <= MAX_OBJECT_KEYS, rest)
    ensures Judged(SkipBody(Marker(v), depth, Body(v) + rest), Within(v, depth), rest)
  {
    hide SkipMembers, MembersBody, MembersWithin, CountMembers, Be32, SkipShort, Short;
    var s := Body(v) + rest;
    match v
    case Object(_) =>
    case EcmaArray(n, _) =>
      assert s == Be32(n) + (MembersBody(m) + rest);
      assert s[4..] == MembersBody(m) + rest;
    case TypedObject(n, _) =>
      assert s == Short(n) + (MembersBody(m) + rest);
      SkipsShort(n, MembersBody(m) + rest);
  }

  lemma SkipsArray(items: Items, depth: nat, rest: bytes)
    requires ItemsSized(items) && CountItems(items) < U32_MODULUS
    requires Judged(SkipItems(CountItems(items), depth + 1, ItemsBody(items) + rest), ItemsWithin(items, depth + 1), rest)
    ensures Judged(SkipBody(STRICT_ARRAY, depth, Body(StrictArray(items)) + rest), Within(StrictArray(items), depth), rest)
  {
    hide SkipItems, ItemsBody, ItemsWithin, CountItems, Be32, FromBe32;
    var s := Body(StrictArray(items)) + rest;
    assert s == Be32(CountItems(items)) + (ItemsBody(items) + rest);
    Be32Decodes(CountItems(items), ItemsBody(items) + rest);
    assert s[4..] == ItemsBody(items) + rest;
  }

  lemma SkipsLeaf(v: Value, depth: nat, rest: bytes)
    requires Sized(v) && !v.Object? && !v.EcmaArray? && !v.StrictArray? && !v.TypedObject?
    ensures Judged(SkipBody(Marker(v), depth, Body(v) + rest), true, rest)
  {
    var b, s := Body(v), Body(v) + rest;
    assert s[|b|..] == rest;
    match v
    case String(t) => SkipsShort(t, rest);
    case LongString(t) => SkipsLong(t, rest);
    case XmlDoc(t) => SkipsLong(t, rest);
    case _ =>
  }

  lemma SkipsMarked(v: Value, depth: nat, rest: bytes)
    requires Sized(v)
    ensures Judged(SkipMarked(depth, Encode(v) + rest), Within(v, depth), rest)
    decreases v, 1
  {
    var s := Encode(v) + rest;
    assert s[1..] == Body(v) + rest;
    SkipsBody(v, depth, rest);
  }

  lemma {:induction false} SkipsItems(items: Items, depth: nat, rest: bytes)
    requires ItemsSized(items)
    ensures Judged(SkipItems(CountItems(items), depth, ItemsBody(items) + rest), ItemsWithin(items, depth), rest)
    decreases items
  {
    if items.Item? {
      assert ItemsBody(items) + rest == Encode(items.value) + (ItemsBody(items.others) + rest);
      SkipsMarked(items.value, depth, ItemsBody(items.others) + rest);
      SkipsItems(items.others, depth, rest);
    }
  }

  lemma {:induction false} SkipsMembers(m: Members, keys: nat, depth: nat, rest: bytes)
    requires MembersSized(m)
    ensures Judged(SkipMembers(keys, depth, MembersBody(m) + rest),
                   MembersWithin(m, depth) && (keys + CountMembers(m) <= MAX_OBJECT_KEYS || m.NoMember?), rest)
    decreases m
  {
    match m
    case NoMember =>
      assert (MembersBody(m) + rest)[3..] == rest;
    case Member(k, v, others) =>
      hide Short, SkipShort, SkipMarked, SkipMembers, Encode, Within, Sized, Judged, ObjectEnds;
      var tail := MembersBody(others) + rest;
      assert MembersBody(m) + rest == Short(k) + (Encode(v) + tail);
      NotTheEnd(k, v, tail);
      SkipsShort(k, Encode(v) + tail);
      SkipsMarked(v, depth, tail);
      SkipsMembers(others, keys + 1, depth, rest);
      var okRest := MembersWithin(others, depth) && (keys + 1 + CountMembers(others) <= MAX_OBJECT_KEYS || others.NoMember?);
      MemberStep(Short(k) + (Encode(v) + tail), Encode(v) + tail, tail, keys, depth, Within(v, depth), okRest, rest);
  }

  /** One turn of the key loop, from what its three parts do. */
  lemma MemberStep(s: bytes, s1: bytes, tail: bytes, keys: nat, depth: nat, okValue: bool, okRest: bool, rest: bytes)
    requires !ObjectEnds(s) && SkipShort(s) == Passed(s1)
    requires Judged(SkipMarked(depth, s1), okValue, tail) && Judged(SkipMembers(keys + 1, depth, tail), okRest, rest)
    ensures Judged(SkipMembers(keys, depth, s), okValue && keys + 1 <= MAX_OBJECT_KEYS && okRest, rest)
  {
    hide SkipMarked, SkipShort, ObjectEnds;
  }

  /** No member looks like the end marker: an empty key is told apart by the type that follows. */
  lemma NotTheEnd(k: bytes, v: Value, tail: bytes)
    requires |k| < 0x1_0000 && Sized(v)
    ensures !ObjectEnds(Short(k) + (Encode(v) + tail))
  {
    hide Short, Encode, FromBe16;
    var rest := Encode(v) + tail;
    ShortHead(k, rest);
    EncodeHead(v, tail);
    ZeroHead(Short(k) + rest);
  }

  lemma ShortHead(k: bytes, rest: bytes)
    requires |k| < 0x1_0000
    ensures |Short(k) + rest| >= 2 && FromBe16(Short(k) + rest) == |k|
    ensures k == [] ==> (Short(k) + rest)[2..] == rest
  {
    hide Be16, FromBe16;
    assert Short(k) + rest == Be16(|k|) + (k + rest);
    Be16Decodes(|k|, k + rest);
  }

  lemma EncodeHead(v: Value, tail: bytes)
    requires Sized(v)
    ensures (Encode(v) + tail)[0] == Marker(v)
  {
  }

  lemma ZeroHead(s: bytes)
    ensures ObjectEnds(s) ==> FromBe16(s) == 0 && |s[2..]| > 0 && s[2..][0] == OBJECT_END
  {
    if ObjectEnds(s) {
      FromBeLast([], 0);
      FromBeLast([0], 0);
      assert s[..2] == [] + [0] + [0];
    }
  }

  // Soundness: a success has consumed exactly one value

  lemma ShortSound(s: bytes) returns (t: bytes)
    requires SkipShort(s).error.None?
    ensures |t| < 0x1_0000 && s == Short(t) + SkipShort(s).rest
  {
    var n := FromBe16(s);
    t := s[2..2 + n];
    Be16Encodes(s);
    assert s == s[..2] + t + s[2 + n..];
    assert s[2..][n..] == s[2 + n..];
  }

  lemma LongSound(s: bytes) returns (t: bytes)
    requires SkipLong(s).error.None?
    ensures |t| < U32_MODULUS && s == Long(t) + SkipLong(s).rest
  {
    var n := FromBe32(s);
    t := s[4..4 + n];
    Be32Encodes(s);
    assert s == s[..4] + t + s[4 + n..];
    assert s[4..][n..] == s[4 + n..];
  }

  lemma LeafSound(ty: byte, depth: nat, s: bytes) returns (v: Value)
    requires SkipBody(ty, depth, s).error.None?
    requires ty != OBJECT && ty != ECMA_ARRAY && ty != STRICT_ARRAY && ty != TYPED_OBJECT
    ensures Marker(v) == ty && Sized(v) && Within(v, depth) && s == Body(v) + SkipBody(ty, depth, s).rest
  {
    if ty == STRING {
      var t := ShortSound(s);
      v := String(t);
    } else if ty == LONG_STRING {
      var t := LongSound(s);
      v := LongString(t);
    } else if ty == XML_DOC {
      var t := LongSound(s);
      v := XmlDoc(t);
    } else {
      v := if ty == NUMBER then Number(s[..8])
           else if ty == BOOLEAN then Boolean(s[0])
           else if ty == DATE then Date(s[..10])
           else if ty == REFERENCE then Reference(s[..2])
           else if ty == NULL then Null
           else if ty == UNDEFINED then Undefined
           else MovieClip;
    }
  }

  lemma {:induction false} BodySound(ty: byte, depth: nat, s: bytes) returns (v: Value)
    requires SkipBody(ty, depth, s).error.None?
    ensures Marker(v) == ty && Sized(v) && Within(v, depth) && s == Body(v) + SkipBody(ty, depth, s).rest
    decreases |s|, 2
  {
    hide Short, SkipShort, SkipLong, SkipMembers, SkipItems, MembersBody, ItemsBody, Be32, FromBe32;
    hide MembersSized, MembersWithin, ItemsSized, ItemsWithin, CountMembers, CountItems;
    var rest := SkipBody(ty, depth, s).rest;
    if ty == OBJECT {
      var m := MembersSound(0, depth + 1, s);
      v := Object(m);
      NoMembersCount(m);
    } else if ty == ECMA_ARRAY {
      var m := MembersSound(0, depth + 1, s[4..]);
      v := EcmaArray(FromBe32(s), m);
      Be32Encodes(s);
      NoMembersCount(m);
      Regroup(s[..4], [], MembersBody(m), rest);
    } else if ty == STRICT_ARRAY {
      var items := ItemsSound(FromBe32(s), depth + 1, s[4..]);
      v := StrictArray(items);
      Be32Encodes(s);
      Regroup(s[..4], [], ItemsBody(items), rest);
    } else if ty == TYPED_OBJECT {
      var n := ShortSound(s);
      var m := MembersSound(0, depth + 1, SkipShort(s).rest);
      v := TypedObject(n, m);
      NoMembersCount(m);
      Regroup(Short(n), [], MembersBody(m), rest);
    } else {
      v := LeafSound(ty, depth, s);
    }
  }

  lemma NoMembersCount(m: Members)
    ensures m.NoMember? ==> CountMembers(m) == 0
  {
  }

  lemma MarkedSound(depth: nat, s: bytes) returns (v: Value)
    requires SkipMarked(depth, s).error.None?
    ensures Sized(v) && Within(v, depth) && s == Encode(v) + SkipMarked(depth, s).rest
    decreases |s|, 0
  {
    v := BodySound(s[0], depth, s[1..]);
  }

  lemma {:induction false} ItemsSound(count: nat, depth: nat, s: bytes) returns (items: Items)
    requires SkipItems(count, depth, s).error.None?
    ensures ItemsSized(items) && ItemsWithin(items, depth) && CountItems(items) == count
    ensures s == ItemsBody(items) + SkipItems(count, depth, s).rest
    decreases |s|, 1
  {
    hide SkipMarked, Encode;
    if count == 0 {
      items := NoItem;
    } else {
      var v := MarkedSound(depth, s);
      var others := ItemsSound(count - 1, depth, SkipMarked(depth, s).rest);
      items := Item(v, others);
      Regroup(Encode(v), [], ItemsBody(others), SkipItems(count, depth, s).rest);
    }
  }

  lemma {:induction false} MembersSound(keys: nat, depth: nat, s: bytes) returns (m: Members)
    requires SkipMembers(keys, depth, s).error.None?
    ensures MembersSized(m) && MembersWithin(m, depth) && (keys + CountMembers(m) <= MAX_OBJECT_KEYS || m.NoMember?)
    ensures s == MembersBody(m) + SkipMembers(keys, depth, s).rest
    decreases |s|, 1
  {
    hide Short, SkipShort, SkipMarked, Encode;
    if ObjectEnds(s) {
      m := NoMember;
    } else {
      var k := ShortSound(s);
      var s1 := SkipShort(s).rest;
      var v := MarkedSound(depth, s1);
      var others := MembersSound(keys + 1, depth, SkipMarked(depth, s1).rest);
      m := Member(k, v, others);
      Regroup(Short(k), Encode(v), MembersBody(others), SkipMembers(keys, depth, s).rest);
    }
  }

  lemma Regroup(a: bytes, b: bytes, c: bytes, d: bytes)
    ensures a + (b + (c + d)) == (a + (b + c)) + d
    ensures a + (c + d) == (a + c) + d
  {
  }

  /** Skipping succeeds and leaves `rest` if and only if one value within the limits, and no more, was in front of it. */
  lemma SkipIsExact(s: bytes, rest: bytes)
    ensures SkipValue(s).error.None? && SkipValue(s).rest == rest
            <==> exists v :: Sized(v) && Within(v, 0) && s == Encode(v) + rest
  {
    if SkipValue(s).error.None? && SkipValue(s).rest == rest {
      var v := MarkedSound(0, s);
      assert Sized(v) && Within(v, 0) && s == Encode(v) + rest;
    }
    forall v | Sized(v) && Within(v, 0) && s == Encode(v) + rest
      ensures SkipValue(s).error.None? && SkipValue(s).rest == rest
    {
      SkipsMarked(v, 0, rest);
    }
  }

  /** A well-formed value beyond the limits is refused as malformed, whatever follows it. */
  lemma LimitsAreExact(v: Value, rest: bytes)
    requires Sized(v)
    ensures SkipValue(Encode(v) + rest).error == if Within(v, 0) then None else Some(Amf)
    ensures Within(v, 0) ==> SkipValue(Encode(v) + rest).rest == rest
  {
    SkipsMarked(v, 0, rest);
  }

  // The source's recursion over a buffer

  /** The method's result, and the buffer it leaves, are what the specification says. */
  ghost predicate Reports(r: Result<()>, calls: nat, left: bytes, spec: Skip) {
    spec == Skip(if r.Ok? then None else Some(r.error), left, calls)
  }

  /** Drains `n` bytes if that many are there. */
  method DrainExactly(buf: Buffer, n: nat) returns (r: Result<()>)
    requires buf.Valid()
    modifies buf`readPos
    ensures buf.Valid() && Reports(r, 0, buf.Contents(), SkipBytes(n, old(buf.Contents())))
  {
    if buf.Available() < n {
      return Err(Io);
    }
    buf.Drain(n);
    return Ok(());
  }

  method DrainShort(buf: Buffer) returns (r: Result<()>)
    requires buf.Valid()
    modifies buf`readPos
    ensures buf.Valid() && Reports(r, 0, buf.Contents(), SkipShort(old(buf.Contents())))
  {
    var head := buf.Read(2);
    if head.Err? {
      return Err(Io);
    }
    FieldsAgree(head.value, old(buf.Contents()), 2);
    r := DrainExactly(buf, FromBe16(head.value));
  }

  method DrainLong(buf: Buffer) returns (r: Result<()>)
    requires buf.Valid()
    modifies buf`readPos
    ensures buf.Valid() && Reports(r, 0, buf.Contents(), SkipLong(old(buf.Contents())))
  {
    var head := buf.Read(4);
    if head.Err? {
      return Err(Io);
    }
    FieldsAgree(head.value, old(buf.Contents()), 4);
    r := DrainExactly(buf, FromBe32(head.value));
  }

  method ReadMarker(buf: Buffer) returns (r: Result<byte>)
    requires buf.Valid()
    modifies buf`readPos
    ensures buf.Valid() && r == ReadType(old(buf.Contents()))
    ensures buf.Contents() == if old(buf.Contents()) == [] then [] else old(buf.Contents())[1..]
  {
    var b := buf.Read(1);
    if b.Err? {
      return Err(Io);
    }
    return if b.value[0] > AVMPLUS then Err(Amf) else Ok(b.value[0]);
  }

  /** `skip_value`: marker and value. */
  method SkipMarkedValue(buf: Buffer, depth: nat) returns (r: Result<()>, ghost calls: nat)
    requires buf.Valid()
    modifies buf`readPos
    ensures buf.Valid() && Reports(r, calls, buf.Contents(), SkipMarked(depth, old(buf.Contents())))
    decreases |buf.Contents()|, 0
  {
    hide SkipBody;
    calls := 0;
    var ty := ReadMarker(buf);
    if ty.Err? {
      return Err(ty.error), 0;
    }
    r, calls := SkipValueDepth(buf, depth, ty.value);
  }

  method SkipValueDepth(buf: Buffer, depth: nat, ty: byte) returns (r: Result<()>, ghost calls: nat)
    requires buf.Valid()
    modifies buf`readPos
    ensures buf.Valid() && Reports(r, calls, buf.Contents(), SkipBody(ty, depth, old(buf.Contents())))
    decreases |buf.Contents()|, 2
  {
    hide SkipBytes, SkipShort, SkipLong, SkipItems, SkipMembers;
    calls := 0;
    if ty == NUMBER {
      r := DrainExactly(buf, 8);
    } else if ty == BOOLEAN {
      r := DrainExactly(buf, 1);
    } else if ty == STRING {
      r := DrainShort(buf);
    } else if ty == LONG_STRING || ty == XML_DOC {
      r := DrainLong(buf);
    } else if ty == DATE {
      r := DrainExactly(buf, 10);
    } else if ty == REFERENCE {
      r := DrainExactly(buf, 2);
    } else if ty == NULL || ty == UNDEFINED || ty == MOVIECLIP {
      r := Ok(());
    } else if ty == STRICT_ARRAY || ty == OBJECT || ty == ECMA_ARRAY || ty == TYPED_OBJECT {
      if depth >= MAX_SKIP_DEPTH {
        r := Err(Amf);
      } else {
        r, calls := SkipContainer(buf, depth, ty);
      }
    } else {
      r := Err(Unsupported);
    }
    calls := calls + 1;
  }

  /** What `SkipBody` says of a container that is not too deep. */
  function ContainerSpec(ty: byte, depth: nat, s: bytes): Skip {
    if ty == OBJECT then SkipMembers(0, depth + 1, s)
    else if ty == TYPED_OBJECT then
      var name := SkipShort(s);
      if name.error.Some? then name else SkipMembers(0, depth + 1, name.rest)
    else if |s| < 4 then Stuck(Io, s)
    else if ty == ECMA_ARRAY then SkipMembers(0, depth + 1, s[4..])
    else if FromBe32(s) > MAX_OBJECT_KEYS then Stuck(Amf, s[4..])
    else SkipItems(FromBe32(s), depth + 1, s[4..])
  }

  method SkipContainer(buf: Buffer, depth: nat, ty: byte) returns (r: Result<()>, ghost calls: nat)
    requires buf.Valid() && (ty == OBJECT || ty == ECMA_ARRAY || ty == STRICT_ARRAY || ty == TYPED_OBJECT)
    modifies buf`readPos
    ensures buf.Valid() && Reports(r, calls, buf.Contents(), ContainerSpec(ty, depth, old(buf.Contents())))
    decreases |buf.Contents()|, 2, 0
  {
    hide SkipShort, SkipItems, SkipMembers, FromBe32;
    calls := 0;
    if ty == TYPED_OBJECT {
      r := DrainShort(buf);
      if r.Err? {
        return;
      }
    } else if ty != OBJECT {
      var head := buf.Read(4);
      if head.Err? {
        return Err(Io), 0;
      }
      FieldsAgree(head.value, old(buf.Contents()), 4);
      if ty == STRICT_ARRAY {
        if FromBe32(head.value) > MAX_OBJECT_KEYS {
          return Err(Amf), 0;
        }
        r, calls := SkipItemLoop(buf, depth + 1, FromBe32(head.value));
        return;
      }
    }
    r, calls := SkipMemberLoop(buf, depth + 1);
  }

  method SkipItemLoop(buf: Buffer, depth: nat, count: nat) returns (r: Result<()>, ghost calls: nat)
    requires buf.Valid()
    modifies buf`readPos
    ensures buf.Valid() && Reports(r, calls, buf.Contents(), SkipItems(count, depth, old(buf.Contents())))
    decreases |buf.Contents()|, 1
  {
    hide SkipMarked;
    calls := 0;
    var i := 0;
    while i < count
      invariant buf.Valid() && i <= count && |buf.Contents()| <= |old(buf.Contents())|
      invariant SkipItems(count, depth, old(buf.Contents()))
             == Entered(SkipItems(count - i, depth, buf.Contents()), calls)
    {
      ghost var c: nat;
      r, c := SkipMarkedValue(buf, depth);
      calls := calls + c;
      if r.Err? {
        return;
      }
      i := i + 1;
    }
    return Ok(()), calls;
  }

  method SkipMemberLoop(buf: Buffer, depth: nat) returns (r: Result<()>, ghost calls: nat)
    requires buf.Valid()
    modifies buf`readPos
    ensures buf.Valid() && Reports(r, calls, buf.Contents(), SkipMembers(0, depth, old(buf.Contents())))
    decreases |buf.Contents()|, 1
  {
    hide SkipMarked, SkipShort;
    calls := 0;
    var keys := 0;
    while true
      invariant buf.Valid() && |buf.Contents()| <= |old(buf.Contents())|
      invariant SkipMembers(0, depth, old(buf.Contents()))
             == Entered(SkipMembers(keys, depth, buf.Contents()), calls)
      decreases |buf.Contents()|
    {
      if ObjectEnds(buf.Contents()) {
        var end := buf.Read(3);
        return Ok(()), calls;
      }
      if keys + 1 > MAX_OBJECT_KEYS {
        return Err(Amf), calls;
      }
      r := DrainShort(buf);
      if r.Err? {
        return;
      }
      ghost var c: nat;
      r, c := SkipMarkedValue(buf, depth);
      calls := calls + c;
      if r.Err? {
        return;
      }
      keys := keys + 1;
    }
  }
}
