/**
 The mutable chunk-stream registry of src/chunk/state.rs and the reader of
 src/chunk/reader.rs over it. The O(1) caches (id index, byte total, active
 count) are proved to agree with the stream table in every state a caller sees.
 */
module ChunkRegistries {
  import opened Bytes
  import opened Buffers
  import opened ChunkWire
  import opened ChunkState
  import opened ChunkReader

  /** Outcome of the peeking phase. */
  datatype Decision = Wait | Refuse | Go(basic: Basic, ext: bool, toRead: nat)

  ghost predicate Decides(b: bytes, d: Decision, c: Chunk, n: nat) {
    && d.Go? && DecodeBasic(b) == Some(d.basic)
    && HeaderSize(d.basic, d.ext) + d.toRead == n <= |b|
    && c == ChunkAt(b, d.basic, d.ext, d.toRead)
  }

  function IndexGet(index: map<u32, nat>, csid: u32): Option<nat> {
    if csid in index then Some(index[csid]) else None
  }

  /** The id index answers exactly like a search of the table. */
  ghost predicate IndexAgrees(streams: seq<ChunkStream>, index: map<u32, nat>) {
    forall c: u32 :: Find(streams, c) == IndexGet(index, c)
  }

  lemma IndexAfterUpdate(streams: seq<ChunkStream>, index: map<u32, nat>, i: nat, s: ChunkStream)
    requires IndexAgrees(streams, index) && i < |streams| && streams[i].csid == s.csid
    ensures IndexAgrees(streams[i := s], index)
  {
    forall c: u32 ensures Find(streams[i := s], c) == IndexGet(index, c) {
      FindUpdate(streams, i, s, c);
    }
  }

  lemma IndexAfterAppend(streams: seq<ChunkStream>, index: map<u32, nat>, s: ChunkStream)
    requires IndexAgrees(streams, index)
    ensures IndexAgrees(streams + [s], index[s.csid := |streams|])
  {
    forall c: u32 ensures Find(streams + [s], c) == IndexGet(index[s.csid := |streams|], c) {
      FindAppend(streams, s, c);
    }
  }

  lemma IndexAfterRelabel(a: seq<ChunkStream>, b: seq<ChunkStream>, index: map<u32, nat>)
    requires IndexAgrees(a, index)
    requires |a| == |b| && forall i :: 0 <= i < |a| ==> a[i].csid == b[i].csid
    ensures IndexAgrees(b, index)
  {
    forall c: u32 ensures Find(b, c) == IndexGet(index, c) {
      FindSameCsids(a, b, c);
    }
  }

  /** Opening a stream and then storing its successor in the slot is one `Put`. */
  lemma OpenThenStore(reg: Registry, csid: u32, s: ChunkStream)
    requires s.csid == csid
    ensures var slots := Put(reg, StreamFor(reg, csid)).streams;
            && Find(slots, csid).Some?
            && slots[Find(slots, csid).value] == StreamFor(reg, csid)
            && slots[Find(slots, csid).value := s] == Put(reg, s).streams
  {
    FindPut(reg, StreamFor(reg, csid), csid);
  }

  lemma AdvanceKeepsCsid(s: ChunkStream, c: Chunk)
    ensures Advance(s, c).stream.csid == s.csid
  {
  }

  lemma StreamForOk(reg: Registry, csid: u32)
    requires ValidRegistry(reg)
    ensures StreamOk(StreamFor(reg, csid))
  {
    InUse(reg, csid);
  }

  /** In a valid registry the budget check that phase 1 made still passes in phase 3. */
  lemma AcceptedFitsBudget(reg: Registry, b: bytes)
    requires PlanFor(reg, b).Accept?
    ensures var c := PlanFor(reg, b).chunk;
            && (c.body != [] ==>
                  SatSub(TotalBytes(reg.streams), Replaced(c.fmt, Get(reg, c.csid))) + |c.body| <= reg.maxReassemblyBytes)
            && CanOpen(Get(reg, c.csid), ContextOf(reg))
  {
  }

  class ChunkRegistry {
    var streams: seq<ChunkStream>
    var csidIndex: map<u32, nat>
    var reassemblyBytesInUse: nat
    var reassemblingCount: nat
    var defaultChunkSize: nat
    const maxMsgLength: nat
    const maxActiveCsids: nat
    const maxReassemblyBytes: nat

    /** The abstract value. */
    ghost function View(): Registry
      reads this
    {
      Registry(streams, defaultChunkSize, maxMsgLength, maxActiveCsids, maxReassemblyBytes)
    }

    /** The running totals are the sums they cache. */
    ghost predicate AccountsOk()
      reads this
    {
      && reassemblyBytesInUse == TotalBytes(streams)
      && reassemblingCount == ActiveCount(streams)
    }

    ghost predicate Valid()
      reads this
    {
      IndexAgrees(streams, csidIndex) && AccountsOk() && ValidRegistry(View())
    }

    constructor (chunkSize: nat, maxMsg: nat, maxActive: nat, maxBytes: nat)
      requires chunkSize >= 1
      ensures Valid() && View() == EmptyRegistry(chunkSize, maxMsg, maxActive, maxBytes)
    {
      streams, csidIndex := [], map[];
      reassemblyBytesInUse, reassemblingCount := 0, 0;
      defaultChunkSize := chunkSize;
      maxMsgLength, maxActiveCsids, maxReassemblyBytes := maxMsg, maxActive, maxBytes;
    }

    /** Lookup through the index; the slot is rechecked, as the source does. */
    function Lookup(csid: u32): (r: Option<ChunkStream>)
      requires Valid()
      reads this
      ensures r == Get(View(), csid)
    {
      InUse(View(), csid);
      var slot := IndexGet(csidIndex, csid);
      assert Find(streams, csid) == slot;
      if slot.Some? && streams[slot.value].inUse && streams[slot.value].csid == csid
      then Some(streams[slot.value])
      else None
    }

    /** Whether `GetOrCreateIndex` would succeed. */
    predicate CanGetOrCreate(csid: u32)
      requires Valid()
      reads this
      ensures CanGetOrCreate(csid) == CanOpen(Get(View(), csid), ContextOf(View()))
    {
      match Lookup(csid)
      case Some(s) => s.reassembling || reassemblingCount < maxActiveCsids
      case None => reassemblingCount < maxActiveCsids && |streams| < MAX_CHUNK_STREAMS
    }

    /** Opens a stream within the caps; a dormant one counts against them again. */
    method GetOrCreateIndex(csid: u32) returns (r: Result<nat>)
      requires Valid()
      modifies this
      ensures Valid()
      ensures r.Ok? <==> old(CanGetOrCreate(csid))
      ensures r.Err? ==> r.error == BadChunk && View() == old(View())
      ensures r.Ok? ==> && Find(streams, csid) == Some(r.value)
                        && View() == Put(old(View()), StreamFor(old(View()), csid))
    {
      InUse(View(), csid);
      assert Find(streams, csid) == IndexGet(csidIndex, csid);
      if csid in csidIndex {
        var idx := csidIndex[csid];
        if streams[idx].inUse && streams[idx].csid == csid {
          if !streams[idx].reassembling && reassemblingCount >= maxActiveCsids {
            return Err(BadChunk);
          }
          return Ok(idx);
        }
      }
      if reassemblingCount >= maxActiveCsids {
        return Err(BadChunk);
      }
      if |streams| >= MAX_CHUNK_STREAMS {
        return Err(BadChunk);
      }
      var stream := NewStream(csid, defaultChunkSize);
      PutValid(View(), stream);
      IndexAfterAppend(streams, csidIndex, stream);
      SumsAppend(streams, stream);
      FindAppend(streams, stream, csid);
      var idx := |streams|;
      streams := streams + [stream];
      csidIndex := csidIndex[csid := idx];
      assert View() == Put(old(View()), stream);
      return Ok(idx);
    }

    /** Takes a stream's bytes out of the running total; the subtraction never saturates. */
    method ReleaseStreamReassembly(idx: nat)
      requires idx < |streams| && reassemblyBytesInUse == TotalBytes(streams)
      modifies this`reassemblyBytesInUse
      ensures reassemblyBytesInUse + |streams[idx].partial| == old(reassemblyBytesInUse)
    {
      TotalUpdate(streams, idx, streams[idx]);
      ReleaseReassemblyBytes(|streams[idx].partial|);
    }

    method ReleaseReassemblyBytes(released: nat)
      modifies this`reassemblyBytesInUse
      ensures reassemblyBytesInUse == SatSub(old(reassemblyBytesInUse), released)
      ensures released <= old(reassemblyBytesInUse) ==> reassemblyBytesInUse + released == old(reassemblyBytesInUse)
    {
      reassemblyBytesInUse := SatSub(reassemblyBytesInUse, released);
    }

    /** The only way to change a `reassembling` flag; the cached count stays exact. */
    method SetStreamReassembling(idx: nat, flag: bool)
      requires idx < |streams| && reassemblingCount == ActiveCount(streams)
      modifies this`streams, this`reassemblingCount
      ensures streams == old(streams)[idx := old(streams)[idx].(reassembling := flag)]
      ensures reassemblingCount == ActiveCount(streams)
    {
      var stream := streams[idx].(reassembling := flag);
      ActiveUpdate(streams, idx, stream);
      if streams[idx].reassembling == flag {
        return;
      }
      streams := streams[idx := stream];
      if flag {
        reassemblingCount := reassemblingCount + 1;
      } else {
        reassemblingCount := SatSub(reassemblingCount, 1);
      }
    }

    /** Applies a negotiated chunk size to every stream, one by one. */
    method SetAllChunkSize(n: nat)
      requires Valid()
      modifies this`defaultChunkSize, this`streams
      ensures Valid() && View() == ChunkState.SetAllChunkSize(old(View()), n)
    {
      if n < DEFAULT_CHUNK_SIZE || n > MAX_PEER_CHUNK_SIZE {
        return;
      }
      SetAllChunkSizeKeepsValid(View(), n);
      ghost var after := ChunkState.SetAllChunkSize(View(), n).streams;
      SumsSame(streams, after);
      IndexAfterRelabel(streams, after, csidIndex);
      defaultChunkSize := n;
      assert forall i :: 0 <= i < |streams| ==> StreamOk(streams[i]) ==> streams[i].inUse;
      streams := Resize(streams, n);
      assert streams == after;
    }

    static method Resize(table: seq<ChunkStream>, n: nat) returns (out: seq<ChunkStream>)
      requires forall i :: 0 <= i < |table| ==> table[i].inUse
      ensures |out| == |table|
      ensures forall i :: 0 <= i < |table| ==> out[i] == table[i].(chunkSize := n)
    {
      out := table;
      for i := 0 to |table|
        invariant |out| == |table|
        invariant forall k :: 0 <= k < i ==> out[k] == table[k].(chunkSize := n)
        invariant forall k :: i <= k < |table| ==> out[k] == table[k]
      {
        if out[i].inUse {
          out := out[i := out[i].(chunkSize := n)];
        }
      }
    }

    /** Abort Message: drop the partial message, keep the header context. */
    method AbortStream(csid: u32)
      requires Valid()
      modifies this
      ensures Valid() && View() == ChunkState.AbortStream(old(View()), csid)
    {
      InUse(View(), csid);
      assert Find(streams, csid) == IndexGet(csidIndex, csid);
      if csid in csidIndex {
        var idx := csidIndex[csid];
        if streams[idx].inUse && streams[idx].csid == csid {
          AbortKeepsValid(View(), csid);
          ReplaceIdle(idx, EmptiedStream(streams[idx]));
        }
      }
    }

    /** Forget everything about a stream except its slot. */
    method ResetStream(csid: u32)
      requires Valid()
      modifies this
      ensures Valid() && View() == ChunkState.ResetStream(old(View()), csid)
    {
      InUse(View(), csid);
      assert Find(streams, csid) == IndexGet(csidIndex, csid);
      if csid in csidIndex {
        var idx := csidIndex[csid];
        if streams[idx].inUse && streams[idx].csid == csid {
          ResetKeepsValid(View(), csid);
          ReplaceIdle(idx, NewStream(csid, defaultChunkSize));
        }
      }
    }

    /** Gives a slot's bytes and its place among the active streams back, then stores an idle stream there. */
    method ReplaceIdle(idx: nat, idle: ChunkStream)
      requires IndexAgrees(streams, csidIndex) && AccountsOk()
      requires idx < |streams| && idle.csid == streams[idx].csid && idle.partial == [] && !idle.reassembling
      modifies this
      ensures IndexAgrees(streams, csidIndex) && AccountsOk()
      ensures streams == old(streams)[idx := idle] && defaultChunkSize == old(defaultChunkSize)
    {
      IndexAfterUpdate(streams, csidIndex, idx, idle);
      TotalUpdate(streams, idx, idle);
      ReleaseStreamReassembly(idx);
      SetStreamReassembling(idx, false);
      ActiveUpdate(streams, idx, idle);
      assert streams[idx := idle] == old(streams)[idx := idle];
      streams := streams[idx := idle];
    }

    method Destroy()
      requires defaultChunkSize >= 1
      modifies this
      ensures Valid() && View() == EmptyRegistry(old(defaultChunkSize), maxMsgLength, maxActiveCsids, maxReassemblyBytes)
    {
      streams, csidIndex := [], map[];
      reassemblyBytesInUse, reassemblingCount := 0, 0;
    }

    /** Phase 1: the whole decision, by peeking only. */
    method Peek(buf: Buffer) returns (d: Decision)
      requires Valid() && buf.Valid()
      ensures match PlanFor(View(), buf.Contents())
              case NeedMore => d == Wait
              case Reject => d == Refuse
              case Accept(c, n) => Decides(buf.Contents(), d, c, n)
    {
      var peek := buf.Contents();
      var basic := DecodeBasic(peek);
      if basic.None? {
        return Wait;
      }
      var csid := basic.value.csid;
      d := Decide(peek, basic.value, Lookup(csid), CanGetOrCreate(csid), reassemblyBytesInUse,
                  defaultChunkSize, maxMsgLength, maxReassemblyBytes, ContextOf(View()));
    }

    /** The checks of phase 1 once the chunk's stream has been looked up. */
    static method Decide(
      peek: bytes, basic: Basic, stream: Option<ChunkStream>, canOpen: bool, inUse: nat,
      defaultSize: nat, maxMsg: nat, maxBytes: nat, ghost cx: Context)
      returns (d: Decision)
      requires DecodeBasic(peek) == Some(basic)
      requires cx.total == inUse && cx.defaultChunkSize == defaultSize && cx.maxMsgLength == maxMsg
      requires cx.maxReassemblyBytes == maxBytes && canOpen == CanOpen(stream, cx)
      ensures match PlanChunk(peek, basic, stream, cx)
              case NeedMore => d == Wait
              case Reject => d == Refuse
              case Accept(c, n) => Decides(peek, d, c, n)
    {
      var available := |peek|;
      var fmt, headerSize := basic.fmt, basic.size;
      var baseNeeded := headerSize + MessageFieldsLen(fmt);
      if available < baseNeeded {
        return Wait;
      }
      if fmt >= 2 && stream.None? {
        return Refuse;
      }
      if fmt == 2 && stream.value.bytesRead != 0 {
        return Refuse;
      }
      var ext := if fmt <= 2 then FromBe24(peek[headerSize..]) >= EXTENDED_TIMESTAMP_MARKER else stream.value.extTs;
      var totalHeader := baseNeeded + if ext then 4 else 0;
      if available < totalHeader {
        return Wait;
      }
      var length := if fmt <= 1 then FromBe24(peek[headerSize + 3..]) else stream.value.msgLength;
      if length > maxMsg {
        return Refuse;
      }
      var chunkSize := if stream.Some? then stream.value.chunkSize else defaultSize;
      var toRead := Min(SatSub(length, if fmt <= 1 then 0 else stream.value.bytesRead), chunkSize);
      var replaced := if fmt <= 1 && stream.Some? then |stream.value.partial| else 0;
      if toRead > 0 && SatSub(inUse, replaced) + toRead > maxBytes {
        return Refuse;
      }
      if fmt >= 2 && !stream.value.hasMessageHeader {
        return Refuse;
      }
      if !canOpen {
        return Refuse;
      }
      if available < totalHeader + toRead {
        return Wait;
      }
      return Go(basic, ext, toRead);
    }

    /**
     Reads one chunk: peek at everything first, then consume. Any answer other
     than a consumed chunk leaves both the buffer and the registry untouched,
     and every failure exit after the first consumed byte is dead.
     */
    method ChunkRead(buf: Buffer) returns (r: Result<Option<Message>>)
      requires Valid() && buf.Valid()
      modifies this, buf
      ensures Valid() && buf.Valid()
      ensures match ReadChunk(old(View()), old(buf.Contents()))
              case Waiting => r == Ok(None) && View() == old(View()) && buf.Contents() == old(buf.Contents())
              case Refused => r == Err(BadChunk) && View() == old(View()) && buf.Contents() == old(buf.Contents())
              case Consumed(_, n, reg, m) =>
                r == Ok(m) && View() == reg && buf.Contents() == old(buf.Contents())[n..]
    {
      var d := Peek(buf);
      match d
      case Wait => return Ok(None);
      case Refuse => return Err(BadChunk);
      case Go(basic, ext, toRead) => r := Consume(buf, basic, ext, toRead);
    }

    /** Phases 2 and 3 of a read whose plan is to accept; the budget is rechecked in between. */
    method Consume(buf: Buffer, h: Basic, ext: bool, toRead: nat) returns (r: Result<Option<Message>>)
      requires Valid() && buf.Valid()
      requires HeaderSize(h, ext) + toRead <= |buf.Contents()|
      requires PlanFor(View(), buf.Contents())
            == Accept(ChunkAt(buf.Contents(), h, ext, toRead), HeaderSize(h, ext) + toRead)
      modifies this, buf
      ensures Valid() && buf.Valid()
      ensures var out := ReadChunk(old(View()), old(buf.Contents()));
              r == Ok(out.message) && View() == out.reg && buf.Contents() == old(buf.Contents())[out.wireLen..]
    {
      hide PlanFor, Advance, FromBe24, FromBe32, FromLe32, TotalBytes, ActiveCount, StreamOk;
      ghost var reg, b := View(), buf.Contents();
      ghost var c := ChunkAt(b, h, ext, toRead);
      ReadKeepsValid(reg, b);
      AcceptedIsAdmissible(reg, b);
      AcceptedFitsBudget(reg, b);
      StreamForOk(reg, h.csid);
      DropDrop(b, HeaderSize(h, ext), toRead);
      var header := ReadHeader(buf, h, ext, toRead);
      assert c.body <= buf.Contents();
      if toRead > 0 {
        var stream := Lookup(header.csid);
        var replaced := if header.fmt <= 1 && stream.Some? then |stream.value.partial| else 0;
        if SatSub(reassemblyBytesInUse, replaced) + toRead > maxReassemblyBytes {
          assert false;
          return Err(BadChunk);
        }
      }
      r := Store(buf, header, c);
    }

    /** Phase 3: open the stream and reassemble. */
    method Store(buf: Buffer, header: Chunk, ghost c: Chunk) returns (r: Result<Option<Message>>)
      requires Valid() && buf.Valid()
      requires header.(body := c.body) == c && c.body <= buf.Contents()
      requires StreamOk(StreamFor(View(), c.csid)) && Admissible(StreamFor(View(), c.csid), c)
      requires CanOpen(Get(View(), c.csid), ContextOf(View()))
      requires ValidRegistry(Put(View(), Advance(StreamFor(View(), c.csid), c).stream))
      modifies this, buf
      ensures Valid() && buf.Valid() && buf.Contents() == old(buf.Contents())[|c.body|..]
      ensures var a := Advance(StreamFor(old(View()), c.csid), c);
              View() == Put(old(View()), a.stream) && r == Ok(a.message)
    {
      hide Advance, Admissible, StreamOk, TotalBytes, ActiveCount;
      AdvanceKeepsCsid(StreamFor(View(), c.csid), c);
      OpenThenStore(View(), c.csid, Advance(StreamFor(View(), c.csid), c).stream);
      var slot := GetOrCreateIndex(header.csid);
      if slot.Err? {
        assert false;
        return Err(BadChunk);
      }
      assert streams[slot.value] == StreamFor(old(View()), c.csid);
      IndexAfterUpdate(streams, csidIndex, slot.value, Advance(streams[slot.value], c).stream);
      r := Reassemble(buf, slot.value, header, c);
    }

    /** Phase 2: consume the basic header, the message fields and the extended timestamp. */
    static method ReadHeader(buf: Buffer, h: Basic, ext: bool, ghost toRead: nat) returns (c: Chunk)
      requires buf.Valid() && HeaderSize(h, ext) + toRead <= |buf.Contents()|
      modifies buf
      ensures buf.Valid() && buf.Contents() == old(buf.Contents())[HeaderSize(h, ext)..]
      ensures c == ChunkAt(old(buf.Contents()), h, ext, toRead).(body := [])
    {
      hide FromBe24, FromBe32, FromLe32;
      ghost var b := buf.Contents();
      FieldsInSlice(b, h, ext, toRead);
      DropDrop(b, h.size, MessageFieldsLen(h.fmt));
      TakeAfterDrop(b, h.size, MessageFieldsLen(h.fmt));
      buf.Drain(h.size);
      var fields := buf.Read(MessageFieldsLen(h.fmt));
      if fields.Err? {
        assert false;
      }
      var mh := fields.value;
      assert mh == b[h.size..HeaderSize(h, false)];
      var ts := if h.fmt <= 2 then FromBe24(mh) else 0;
      var length := if h.fmt <= 1 then FromBe24(mh[3..]) else 0;
      var typeId := if h.fmt <= 1 then mh[6] else 0;
      var streamId := if h.fmt == 0 then FromLe32(mh[7..]) else 0;
      assert buf.Contents() == b[HeaderSize(h, false)..];
      if ext {
        TakeAfterDrop(b, HeaderSize(h, false), 4);
        DropDrop(b, HeaderSize(h, false), 4);
        var field := buf.Read(4);
        if field.Err? {
          assert false;
        }
        ts := FromBe32(field.value);
        assert field.value == b[HeaderSize(h, false)..HeaderSize(h, true)];
      }
      c := Chunk(h.csid, h.fmt, ts, ext, length, typeId, streamId, []);
    }

    /** The header part of phase 3, and how many payload bytes the chunk carries under it. */
    static method NextHeader(s: ChunkStream, header: Chunk) returns (stream: ChunkStream, n: nat)
      ensures stream == ApplyHeader(s, header)
      ensures n == Min(SatSub(stream.msgLength, stream.bytesRead), stream.chunkSize)
    {
      stream := s;
      if header.fmt == 0 {
        stream := stream.(hasMessageHeader := true, timestamp := header.tsField, msgLength := header.length,
                          msgTypeId := header.typeId, msgStreamId := header.streamId, extTs := header.ext,
                          lastDelta := header.tsField);
      } else if header.fmt == 1 {
        stream := stream.(hasMessageHeader := true, timestamp := WrapAdd32(stream.timestamp, header.tsField),
                          msgLength := header.length, msgTypeId := header.typeId, extTs := header.ext,
                          lastDelta := header.tsField);
      } else if header.fmt == 2 {
        stream := stream.(timestamp := WrapAdd32(stream.timestamp, header.tsField), extTs := header.ext,
                          lastDelta := header.tsField);
      } else if stream.bytesRead == 0 {
        stream := stream.(timestamp := WrapAdd32(stream.timestamp, stream.lastDelta));
      }
      n := Min(SatSub(stream.msgLength, stream.bytesRead), stream.chunkSize);
    }

    /** Phase 3 on an opened slot: header state, payload bytes, completion, accounting. */
    method Reassemble(buf: Buffer, idx: nat, header: Chunk, ghost c: Chunk)
      returns (r: Result<Option<Message>>)
      requires AccountsOk() && buf.Valid()
      requires idx < |streams| && StreamOk(streams[idx]) && Admissible(streams[idx], c)
      requires header.(body := c.body) == c && c.body <= buf.Contents()
      modifies this`streams, this`reassemblingCount, this`reassemblyBytesInUse, buf
      ensures AccountsOk() && buf.Valid()
      ensures streams == old(streams)[idx := Advance(old(streams)[idx], c).stream]
      ensures r == Ok(Advance(old(streams)[idx], c).message)
      ensures buf.Contents() == old(buf.Contents())[|c.body|..]
    {
      hide Completed, TotalBytes, ActiveCount;
      ghost var s := streams[idx];
      AbsorbedFits(s, c);
      var stream := streams[idx];
      if header.fmt <= 1 {
        ReleaseStreamReassembly(idx);
        stream := stream.(bytesRead := 0, partial := []);
      }
      if header.fmt >= 2 && stream.bytesRead == 0 && !stream.hasMessageHeader {
        assert false;
        return Err(BadChunk);
      }
      var n;
      stream, n := NextHeader(stream, header);
      var data := buf.Read(n);
      if data.Err? {
        assert false;
        return Err(Io);
      }
      if |stream.partial| + n > BUFFER_MAX_SIZE {
        assert false;
        return Err(BadChunk);
      }
      stream := stream.(partial := stream.partial + data.value, bytesRead := stream.bytesRead + n);
      assert data.value == c.body;
      assert stream == Absorbed(s, c);
      r := Settle(idx, stream, stream.bytesRead >= stream.msgLength, header.fmt, n);
    }

    /** Stores the absorbed stream, settles the flags and totals, and hands a finished message over. */
    method Settle(idx: nat, stream: ChunkStream, complete: bool, fmt: Fmt, n: nat)
      returns (r: Result<Option<Message>>)
      requires idx < |streams| && streams[idx].csid == stream.csid && streams[idx].reassembling == stream.reassembling
      requires reassemblingCount == ActiveCount(streams)
      requires reassemblyBytesInUse + n == TotalBytes(streams) - |streams[idx].partial| + |stream.partial|
      modifies this`streams, this`reassemblingCount, this`reassemblyBytesInUse
      ensures AccountsOk()
      ensures var a := Completed(stream, complete, fmt);
              streams == old(streams)[idx := a.stream] && r == Ok(a.message)
    {
      ghost var before := streams;
      ActiveUpdate(before, idx, stream);
      TotalUpdate(before, idx, Completed(stream, complete, fmt).stream);
      streams := streams[idx := stream];
      reassemblyBytesInUse := reassemblyBytesInUse + n;
      UpdateTwice(before, idx, stream, stream.(reassembling := !complete));
      SetStreamReassembling(idx, !complete);
      if !complete {
        return Ok(None);
      }
      var payload := streams[idx].partial;
      var emptied := streams[idx].(partial := [], bytesRead := 0);
      ActiveUpdate(streams, idx, emptied);
      UpdateTwice(before, idx, streams[idx], emptied);
      streams := streams[idx := emptied];
      ReleaseReassemblyBytes(|payload|);
      return Ok(Some(Message(stream.csid, fmt, stream.timestamp, stream.msgLength, stream.msgTypeId,
                             stream.msgStreamId, payload)));
    }
  }
}
