/**
 The binary form of the E-RTMP video FourCC info map, src/ertmp/connect_caps.rs.
 Blobs come in two layouts, with and without a capability mask per key, and
 nothing in a blob says which; the parser tries both walks.
 */
module ConnectCaps {
  import opened Bytes

  const MAX_FOURCCS: nat := 16
  const FOUR_CC_INFO_ALL: u32 := 7
  const WILDCARD: byte := 42

  /** A FourCC is stored in five bytes, zero-terminated. */
  datatype Entry = Entry(cc: bytes, mask: u32)

  // The grammar

  /** A key is the wildcard alone or any four bytes. */
  datatype Raw = Raw(key: bytes, mask: u32)

  predicate KeyOk(key: bytes) {
    key == [WILDCARD] || |key| == 4
  }

  predicate RawOk(raw: seq<Raw>) {
    forall i :: 0 <= i < |raw| ==> KeyOk(raw[i].key)
  }

  function EntryWire(r: Raw, legacy: bool): bytes
    requires KeyOk(r.key)
  {
    Be16(|r.key|) + (r.key + if legacy then [] else Be32(r.mask))
  }

  function Wire(raw: seq<Raw>, legacy: bool): bytes
    requires RawOk(raw)
  {
    if raw == [] then [] else EntryWire(raw[0], legacy) + Wire(raw[1..], legacy)
  }

  /** What a key and mask are stored as; a key without a mask supports everything. */
  function Stored(r: Raw, legacy: bool): Entry {
    Entry(if r.key == [WILDCARD] then [WILDCARD, 0, 0, 0, 0] else r.key + [0], if legacy then FOUR_CC_INFO_ALL else r.mask)
  }

  function StoredAll(raw: seq<Raw>, legacy: bool): (entries: seq<Entry>)
    ensures |entries| == |raw|
  {
    seq(|raw|, i requires 0 <= i < |raw| => Stored(raw[i], legacy))
  }

  // What the parser does, on the bytes still ahead

  /** A key with a length of 1 or 4 in front, and what follows it. */
  function NextKey(s: bytes): (r: Option<(bytes, bytes)>)
    ensures r.Some? ==> |r.value.0| in {1, 4} && |r.value.1| + |r.value.0| + 2 == |s|
  {
    if |s| < 2 then None
    else
      var n := FromBe16(s);
      if (n != 1 && n != 4) || 2 + n > |s| then None else Some((s[2..2 + n], s[2 + n..]))
  }

  function Extra(legacy: bool): nat {
    if legacy then 0 else 4
  }

  /** Probes a layout: what is left after `count` entries of it. */
  function Walk(s: bytes, count: nat, legacy: bool): Option<bytes> {
    if count == 0 then Some(s)
    else
      match NextKey(s)
      case None => None
      case Some((_, rest)) =>
        if |rest| < Extra(legacy) then None else Walk(rest[Extra(legacy)..], count - 1, legacy)
  }

  function Entries(s: bytes, count: nat, legacy: bool): Option<seq<Entry>> {
    if count == 0 then Some([])
    else
      match NextKey(s)
      case None => None
      case Some((key, rest)) =>
        if !KeyOk(key) || |rest| < Extra(legacy) then None
        else
          match Entries(rest[Extra(legacy)..], count - 1, legacy)
          case None => None
          case Some(entries) => Some([Stored(Raw(key, if legacy then 0 else FromBe32(rest)), legacy)] + entries)
  }

  function Parse(data: bytes): Result<seq<Entry>> {
    if |data| < 4 then Err(Io)
    else
      var count := Min(FromBe32(data), MAX_FOURCCS);
      var s := data[4..];
      var legacy := Walk(s, count, false) != Some([]);
      if legacy && Walk(s, count, true) != Some([]) then Err(Io)
      else
        match Entries(s, count, legacy)
        case None => Err(Io)
        case Some(entries) => Ok(entries)
  }

  // The two layouts

  lemma NextOfWire(r: Raw, legacy: bool, rest: bytes)
    requires KeyOk(r.key)
    ensures var tail := if legacy then rest else Be32(r.mask) + rest;
            && NextKey(EntryWire(r, legacy) + rest) == Some((r.key, tail))
            && |tail| >= Extra(legacy) && tail[Extra(legacy)..] == rest
            && (!legacy ==> FromBe32(tail) == r.mask)
  {
    hide Be16, FromBe16, Be32, FromBe32;
    var s := EntryWire(r, legacy) + rest;
    var n, tail := |r.key|, if legacy then rest else Be32(r.mask) + rest;
    assert s == Be16(n) + (r.key + tail);
    Be16Decodes(n, r.key + tail);
    assert s[2..2 + n] == r.key && s[2 + n..] == tail;
    if !legacy {
      Be32Decodes(r.mask, rest);
    }
  }

  lemma StoredFirst(raw: seq<Raw>, legacy: bool)
    requires raw != []
    ensures StoredAll(raw, legacy) == [Stored(raw[0], legacy)] + StoredAll(raw[1..], legacy)
    ensures legacy ==> Stored(raw[0], legacy) == Stored(Raw(raw[0].key, 0), legacy)
  {
  }

  /** The walk over a layout goes through on exactly its wire form. */
  lemma {:induction false} WireWalks(raw: seq<Raw>, legacy: bool)
    requires RawOk(raw)
    ensures Walk(Wire(raw, legacy), |raw|, legacy) == Some([])
    decreases |raw|
  {
    hide NextKey, EntryWire, FromBe32, Be32;
    if raw != [] {
      NextOfWire(raw[0], legacy, Wire(raw[1..], legacy));
      WireWalks(raw[1..], legacy);
    }
  }

  /** And so does the parse. */
  lemma {:induction false} WireParses(raw: seq<Raw>, legacy: bool)
    requires RawOk(raw)
    ensures Entries(Wire(raw, legacy), |raw|, legacy) == Some(StoredAll(raw, legacy))
    decreases |raw|
  {
    hide NextKey, EntryWire, FromBe32, Be32;
    if raw == [] {
      assert StoredAll(raw, legacy) == [];
    } else {
      NextOfWire(raw[0], legacy, Wire(raw[1..], legacy));
      WireParses(raw[1..], legacy);
      StoredFirst(raw, legacy);
      hide StoredAll, Stored;
    }
  }

  /** An entry takes 3 or 6 bytes, and 4 more with a mask. */
  lemma {:induction false} WalkTakes(s: bytes, count: nat, legacy: bool)
    requires Walk(s, count, legacy) == Some([])
    ensures (3 + Extra(legacy)) * count <= |s| <= (6 + Extra(legacy)) * count
    decreases count
  {
    if count > 0 {
      WalkTakes(NextKey(s).value.1[Extra(legacy)..], count - 1, legacy);
    }
  }

  /** No bytes are both layouts at once: with masks an entry is longer than any without. */
  lemma LayoutsAreDisjoint(s: bytes, count: nat)
    requires count > 0
    ensures !(Walk(s, count, false) == Some([]) && Walk(s, count, true) == Some([]))
  {
    if Walk(s, count, false) == Some([]) && Walk(s, count, true) == Some([]) {
      WalkTakes(s, count, false);
      WalkTakes(s, count, true);
    }
  }

  /** A blob: a count of at most 16, and that many entries in one layout. */
  ghost predicate IsBlob(data: bytes, raw: seq<Raw>, legacy: bool) {
    && RawOk(raw) && |raw| <= MAX_FOURCCS
    && |data| >= 4 && FromBe32(data) == |raw| && data[4..] == Wire(raw, legacy)
  }

  /** Every blob of at most 16 entries, in either layout, is read in the layout it was written in. */
  lemma BlobParses(data: bytes, raw: seq<Raw>, legacy: bool)
    requires IsBlob(data, raw, legacy)
    ensures Parse(data) == Ok(StoredAll(raw, legacy))
  {
    hide Walk, Entries, Wire, FromBe32;
    WireWalks(raw, legacy);
    WireParses(raw, legacy);
    if raw == [] {
      WireWalks(raw, false);
      WireParses(raw, false);
      EmptyWire(raw);
    } else {
      LayoutsAreDisjoint(Wire(raw, legacy), |raw|);
    }
  }

  lemma EmptyWire(raw: seq<Raw>)
    requires raw == []
    ensures RawOk(raw) && Wire(raw, true) == Wire(raw, false) && StoredAll(raw, true) == StoredAll(raw, false)
  {
  }

  /** Nothing else is accepted: a success was one of the two layouts, all of it, read as that layout. */
  lemma ParseIsSound(data: bytes) returns (raw: seq<Raw>, legacy: bool)
    requires Parse(data).Ok?
    ensures RawOk(raw) && |data| >= 4 && |raw| == Min(FromBe32(data), MAX_FOURCCS)
    ensures data[4..] == Wire(raw, legacy) && Parse(data).value == StoredAll(raw, legacy)
  {
    hide Walk, Entries, Wire, StoredAll, FromBe32;
    var count := Min(FromBe32(data), MAX_FOURCCS);
    legacy := Walk(data[4..], count, false) != Some([]);
    raw := EntriesSound(data[4..], count, legacy);
  }

  lemma {:induction false} EntriesSound(s: bytes, count: nat, legacy: bool) returns (raw: seq<Raw>)
    requires Walk(s, count, legacy) == Some([]) && Entries(s, count, legacy).Some?
    ensures RawOk(raw) && |raw| == count && s == Wire(raw, legacy)
    ensures Entries(s, count, legacy).value == StoredAll(raw, legacy)
    decreases count
  {
    hide FromBe32, EntryWire, NextKey;
    if count == 0 {
      raw := [];
      assert StoredAll(raw, legacy) == [];
    } else {
      var (key, rest) := NextKey(s).value;
      var others := EntriesSound(rest[Extra(legacy)..], count - 1, legacy);
      var r := Raw(key, if legacy then 0 else FromBe32(rest));
      raw := [r] + others;
      assert raw[1..] == others;
      NextIsWire(s, r, legacy);
      StoredFirst(raw, legacy);
    }
  }

  lemma NextIsWire(s: bytes, r: Raw, legacy: bool)
    requires NextKey(s).Some? && KeyOk(r.key) && r.key == NextKey(s).value.0
    requires var rest := NextKey(s).value.1;
             |rest| >= Extra(legacy) && (!legacy ==> r.mask == FromBe32(rest))
    ensures s == EntryWire(r, legacy) + NextKey(s).value.1[Extra(legacy)..]
  {
    hide Be16, Be32, FromBe32;
    var n, rest := FromBe16(s), NextKey(s).value.1;
    Be16Encodes(s);
    assert s == s[..2] + (s[2..2 + n] + s[2 + n..]);
    if !legacy {
      Be32Encodes(rest);
      assert rest == rest[..4] + rest[4..];
    }
  }

  // What the writer writes

  predicate EntriesOk(m: seq<Entry>) {
    |m| <= MAX_FOURCCS && forall i :: 0 <= i < |m| ==> |m[i].cc| == 5
  }

  /** The writer looks at the first byte only to tell the wildcard. */
  function Written(e: Entry): (r: Raw)
    requires |e.cc| == 5
    ensures KeyOk(r.key)
  {
    Raw(if e.cc[0] == WILDCARD then [WILDCARD] else e.cc[..4], e.mask)
  }

  function WrittenAll(m: seq<Entry>): (raw: seq<Raw>)
    requires EntriesOk(m)
    ensures |raw| == |m| && RawOk(raw)
  {
    seq(|m|, i requires 0 <= i < |m| => Written(m[i]))
  }

  /** The bare wildcard, or a zero-terminated code that does not start like it. */
  predicate Canonical(e: Entry) {
    e.cc == [WILDCARD, 0, 0, 0, 0] || (|e.cc| == 5 && e.cc[0] != WILDCARD && e.cc[4] == 0)
  }

  /** Parsing what was written gives the map back if and only if its entries are canonical. */
  lemma MapRoundTrip(m: seq<Entry>, data: bytes)
    requires EntriesOk(m) && IsBlob(data, WrittenAll(m), false)
    ensures Parse(data) == Ok(m) <==> forall i :: 0 <= i < |m| ==> Canonical(m[i])
  {
    hide Parse, IsBlob;
    var raw := WrittenAll(m);
    BlobParses(data, raw, false);
    var back := StoredAll(raw, false);
    forall i | 0 <= i < |m| ensures back[i] == m[i] <==> Canonical(m[i]) {
      CanonicalIff(m[i]);
    }
    if back == m {
      assert forall i :: 0 <= i < |m| ==> back[i] == m[i];
    }
    assert (forall i :: 0 <= i < |m| ==> Canonical(m[i])) ==> back == m;
  }

  lemma CanonicalIff(e: Entry)
    requires |e.cc| == 5
    ensures Stored(Written(e), false) == e <==> Canonical(e)
  {
    if e.cc[0] != WILDCARD {
      assert e.cc[..4] + [0] == e.cc <==> e.cc[4] == 0 by {
        assert e.cc == e.cc[..4] + [e.cc[4]];
      }
    }
  }

  // The source's loops

  /** One probe over the whole blob: where `count` entries of a layout end. */
  method ProbeLayout(data: bytes, count: nat, legacy: bool) returns (end: Option<nat>)
    requires |data| >= 4
    ensures match Walk(data[4..], count, legacy)
            case None => end == None
            case Some(rest) => end == Some(|data| - |rest|)
  {
    hide FromBe16;
    var scan := 4;
    var i := 0;
    while i < count
      invariant i <= count && 4 <= scan <= |data|
      invariant Walk(data[4..], count, legacy) == Walk(data[scan..], count - i, legacy)
    {
      KeyAt(data, scan);
      if scan + 2 > |data| {
        return None;
      }
      var slen := FromBe16(data[scan..scan + 2]);
      scan := scan + 2;
      if (slen != 1 && slen != 4) || scan + slen + Extra(legacy) > |data| {
        return None;
      }
      assert data[scan + slen..][Extra(legacy)..] == data[scan + slen + Extra(legacy)..];
      scan := scan + slen + Extra(legacy);
      i := i + 1;
    }
    return Some(scan);
  }

  /** Reading a key at a position is reading the bytes from there on. */
  lemma KeyAt(data: bytes, pos: nat)
    requires pos <= |data|
    ensures pos + 2 > |data| ==> NextKey(data[pos..]) == None
    ensures pos + 2 <= |data| ==>
              var n := FromBe16(data[pos..pos + 2]);
              NextKey(data[pos..]) == if (n != 1 && n != 4) || pos + 2 + n > |data| then None
                                      else Some((data[pos + 2..pos + 2 + n], data[pos + 2 + n..]))
  {
    var s := data[pos..];
    if pos + 2 <= |data| {
      assert data[pos..pos + 2][..2] == s[..2];
      FieldsAgree(data[pos..pos + 2], s, 2);
      var n := FromBe16(s);
      if pos + 2 + n <= |data| {
        assert s[2..2 + n] == data[pos + 2..pos + 2 + n];
        assert s[2 + n..] == data[pos + 2 + n..];
      }
    }
  }

  function PrependAll(front: seq<Entry>, back: Option<seq<Entry>>): Option<seq<Entry>> {
    if back.None? then None else Some(front + back.value)
  }

  lemma EntriesUnfold(front: seq<Entry>, s: bytes, count: nat, legacy: bool)
    requires count > 0
    ensures PrependAll(front, Entries(s, count, legacy))
         == match NextKey(s) {
              case None => None
              case Some((key, rest)) =>
                if !KeyOk(key) || |rest| < Extra(legacy) then None
                else PrependAll(front + [Stored(Raw(key, if legacy then 0 else FromBe32(rest)), legacy)],
                                Entries(rest[Extra(legacy)..], count - 1, legacy))
            }
  {
    hide NextKey, FromBe32;
    if NextKey(s).Some? {
      var (key, rest) := NextKey(s).value;
      if KeyOk(key) && |rest| >= Extra(legacy) {
        var back := Entries(rest[Extra(legacy)..], count - 1, legacy);
        var e := Stored(Raw(key, if legacy then 0 else FromBe32(rest)), legacy);
        if back.Some? {
          assert front + ([e] + back.value) == (front + [e]) + back.value;
        }
      }
    }
  }

  /** Reads the entries of a blob whose layout is known; `parsed` holds those read before a failure. */
  method ReadEntries(data: bytes, count: nat, legacy: bool) returns (ok: bool, parsed: seq<Entry>)
    requires |data| >= 4
    ensures match Entries(data[4..], count, legacy)
            case None => !ok
            case Some(entries) => ok && parsed == entries
  {
    hide FromBe16, Entries;
    var offset, i := 4, 0;
    parsed := [];
    PrependNothing(Entries(data[4..], count, legacy));
    while i < count
      invariant i <= count && 4 <= offset <= |data|
      invariant Entries(data[4..], count, legacy) == PrependAll(parsed, Entries(data[offset..], count - i, legacy))
    {
      KeyAt(data, offset);
      EntriesUnfold(parsed, data[offset..], count - i, legacy);
      if offset + 2 > |data| {
        return false, parsed;
      }
      var slen := FromBe16(data[offset..offset + 2]);
      offset := offset + 2;
      if (slen != 1 && slen != 4) || offset + slen > |data| {
        return false, parsed;
      }
      var key := data[offset..offset + slen];
      if slen == 1 && key[0] != WILDCARD {
        return false, parsed;
      }
      assert KeyOk(key);
      offset := offset + slen;
      ghost var rest := data[offset..];
      var mask := FOUR_CC_INFO_ALL;
      if !legacy {
        if offset + 4 > |data| {
          return false, parsed;
        }
        MaskAt(data, offset);
        mask := FromBe32(data[offset..offset + 4]);
        offset := offset + 4;
      }
      assert data[offset..] == rest[Extra(legacy)..];
      parsed := parsed + [Entry(if slen == 1 then [WILDCARD, 0, 0, 0, 0] else key + [0], mask)];
      i := i + 1;
    }
    EntriesEnd(parsed, data[offset..], legacy);
    return true, parsed;
  }

  lemma PrependNothing(back: Option<seq<Entry>>)
    ensures PrependAll([], back) == back
  {
    if back.Some? {
      assert [] + back.value == back.value;
    }
  }

  lemma EntriesEnd(front: seq<Entry>, s: bytes, legacy: bool)
    ensures PrependAll(front, Entries(s, 0, legacy)) == Some(front)
  {
    assert front + [] == front;
  }

  lemma MaskAt(data: bytes, pos: nat)
    requires pos + 4 <= |data|
    ensures FromBe32(data[pos..pos + 4]) == FromBe32(data[pos..])
  {
    var s, t := data[pos..], data[pos..pos + 4];
    assert s[..4] == t[..4];
    FieldsAgree(s, t, 4);
  }

  /** Prefers the layout with masks, and accepts the old one only if it fits exactly. */
  method VideoFourccInfoMapParse(data: bytes) returns (r: Result<nat>, parsed: seq<Entry>)
    ensures match Parse(data)
            case Err(e) => r == Err(e)
            case Ok(entries) => r == Ok(|entries|) && parsed == entries
  {
    hide Walk, Entries, FromBe32;
    parsed := [];
    if |data| < 4 {
      return Err(Io), parsed;
    }
    MaskAt(data, 0);
    assert data[0..] == data;
    var count := Min(FromBe32(data[0..4]), MAX_FOURCCS);
    var masked := ProbeLayout(data, count, false);
    var keyOnly := ProbeLayout(data, count, true);
    var legacy := masked != Some(|data|);
    if legacy && keyOnly != Some(|data|) {
      return Err(Io), parsed;
    }
    var ok;
    ok, parsed := ReadEntries(data, count, legacy);
    return if ok then Ok(|parsed|) else Err(Io), parsed;
  }

  /** Copies `s` into `buf` at `offset`. */
  method Put(buf: array<byte>, offset: nat, s: bytes)
    requires offset + |s| <= buf.Length
    modifies buf
    ensures buf[..offset + |s|] == old(buf[..offset]) + s
    ensures forall i :: offset + |s| <= i < buf.Length ==> buf[i] == old(buf[i])
  {
    forall i | 0 <= i < |s| {
      buf[offset + i] := s[i];
    }
  }

  /** The bytes needed for the entries. */
  function Needed(m: seq<Entry>): nat
    requires forall i :: 0 <= i < |m| ==> |m[i].cc| == 5
  {
    if m == [] then 0
    else Needed(m[..|m| - 1]) + if m[|m| - 1].cc[0] == WILDCARD then 7 else 10
  }

  lemma {:induction false} WireAppend(raw: seq<Raw>, r: Raw)
    requires RawOk(raw) && KeyOk(r.key)
    ensures RawOk(raw + [r]) && Wire(raw + [r], false) == Wire(raw, false) + EntryWire(r, false)
    decreases |raw|
  {
    hide EntryWire;
    if raw == [] {
      assert (raw + [r])[1..] == [];
      assert Wire([r], false) == EntryWire(r, false) + Wire([], false);
    } else {
      assert (raw + [r])[1..] == raw[1..] + [r];
      WireAppend(raw[1..], r);
    }
  }

  lemma {:induction false} NeededIsExact(m: seq<Entry>, n: nat)
    requires EntriesOk(m) && n <= |m|
    ensures Needed(m[..n]) == |Wire(WrittenAll(m[..n]), false)| && (n < |m| ==> Needed(m[..n]) < Needed(m[..n + 1]))
    decreases n
  {
    if n > 0 {
      NeededIsExact(m, n - 1);
      WrittenStep(m, n - 1);
      assert m[..n][..n - 1] == m[..n - 1];
      assert |EntryWire(Written(m[n - 1]), false)| == if m[n - 1].cc[0] == WILDCARD then 7 else 10;
    }
    if n < |m| {
      assert m[..n + 1][..n] == m[..n];
    }
  }

  lemma WrittenStep(m: seq<Entry>, i: nat)
    requires EntriesOk(m) && i < |m|
    ensures Wire(WrittenAll(m[..i + 1]), false) == Wire(WrittenAll(m[..i]), false) + EntryWire(Written(m[i]), false)
  {
    hide Wire, EntryWire;
    assert WrittenAll(m[..i + 1]) == WrittenAll(m[..i]) + [Written(m[i])];
    WireAppend(WrittenAll(m[..i]), Written(m[i]));
  }

  /** The bytes one entry needs are all of them that are written. */
  lemma RoomFor(m: seq<Entry>, i: nat)
    requires EntriesOk(m) && i < |m|
    ensures |Wire(WrittenAll(m[..i]), false)| + |EntryWire(Written(m[i]), false)| <= Needed(m)
    decreases |m| - i
  {
    hide Wire, EntryWire, Needed, WrittenAll;
    WrittenStep(m, i);
    NeededIsExact(m, i + 1);
    if i + 1 < |m| {
      RoomFor(m, i + 1);
    } else {
      assert m[..i + 1] == m;
    }
  }

  /** Writes the map with its masks, or nothing if `buf` is too small. */
  method VideoFourccInfoMapWrite(m: seq<Entry>, buf: array<byte>) returns (n: nat)
    requires EntriesOk(m)
    modifies buf
    ensures var needed := 4 + |Wire(WrittenAll(m), false)|;
            n == if buf.Length < needed then 0 else needed
    ensures n > 0 ==> buf[..n] == Be32(|m|) + Wire(WrittenAll(m), false) && IsBlob(buf[..n], WrittenAll(m), false)
    ensures buf[n..] == old(buf[n..])
  {
    hide Wire, EntryWire, Needed, WrittenAll, Be32, Be16, FromBe32;
    Be32Decodes(|m|, Wire(WrittenAll(m), false));
    NeededIsExact(m, |m|);
    assert m[..|m|] == m;
    var needed := 4 + Needed(m);
    if buf.Length < needed {
      return 0;
    }
    Put(buf, 0, Be32(|m|));
    var offset := 4;
    NothingWritten(m);
    for i := 0 to |m|
      invariant offset == 4 + |Wire(WrittenAll(m[..i]), false)| <= needed
      invariant buf[..offset] == Be32(|m|) + Wire(WrittenAll(m[..i]), false)
      invariant forall k :: needed <= k < buf.Length ==> buf[k] == old(buf[k])
    {
      RoomFor(m, i);
      WrittenStep(m, i);
      offset := WriteEntry(m[i], buf, offset, needed);
      assert buf[..offset] == Be32(|m|) + Wire(WrittenAll(m[..i + 1]), false);
    }
    return offset;
  }

  lemma NothingWritten(m: seq<Entry>)
    requires EntriesOk(m)
    ensures m[..0] == [] && Wire(WrittenAll(m[..0]), false) == []
  {
  }

  /** Length, key and mask of one entry at `offset`; nothing from `limit` on changes. */
  method WriteEntry(e: Entry, buf: array<byte>, offset: nat, ghost limit: nat) returns (end: nat)
    requires |e.cc| == 5 && offset + |EntryWire(Written(e), false)| <= limit <= buf.Length
    modifies buf
    ensures end == offset + |EntryWire(Written(e), false)|
    ensures buf[..end] == old(buf[..offset]) + EntryWire(Written(e), false)
    ensures forall i :: limit <= i < buf.Length ==> buf[i] == old(buf[i])
  {
    hide Be32, Be16;
    var wildcard := e.cc[0] == WILDCARD;
    var key := if wildcard then [WILDCARD] else e.cc[..4];
    ghost var was := buf[..];
    Put(buf, offset, Be16(|key|));
    Put(buf, offset + 2, key);
    Put(buf, offset + 2 + |key|, Be32(e.mask));
    end := offset + 2 + |key| + 4;
    assert buf[..end] == was[..offset] + (Be16(|key|) + (key + Be32(e.mask)));
  }
}
