/**
 Chunk streams and the per-connection registry of src/chunk/state.rs as values:
 the abstract state that the class in ChunkRegistries.dfy implements.
 */
module ChunkState {
  import opened Bytes
  import opened ChunkWire

  const MAX_CHUNK_STREAMS: nat := 4096
  const MAX_PEER_CHUNK_SIZE: nat := 0xFF_FFFF

  /** State of one chunk stream; `partial` holds the bytes of an unfinished message. */
  datatype ChunkStream = ChunkStream(
    csid: u32,
    chunkSize: nat,
    hasMessageHeader: bool,
    timestamp: u32,
    msgLength: nat,
    msgTypeId: byte,
    msgStreamId: u32,
    extTs: bool,
    lastDelta: u32,
    bytesRead: nat,
    partial: bytes,
    reassembling: bool,
    inUse: bool)

  function NewStream(csid: u32, chunkSize: nat): ChunkStream {
    ChunkStream(csid, chunkSize, false, 0, 0, 0, 0, false, 0, 0, [], false, true)
  }

  /** Between messages: completing or aborting one (section 5.4.2) keeps the header context. */
  function EmptiedStream(s: ChunkStream): ChunkStream {
    s.(partial := [], bytesRead := 0, reassembling := false)
  }

  /** A stream is inside a message exactly when it holds some but not all of its bytes. */
  ghost predicate StreamOk(s: ChunkStream) {
    && s.inUse
    && s.chunkSize >= 1
    && s.msgLength <= RTMP_WIRE_MAX_MSG_LENGTH
    && s.bytesRead == |s.partial|
    && (s.reassembling <==> 0 < s.bytesRead < s.msgLength)
    && (s.bytesRead != 0 ==> s.reassembling && s.hasMessageHeader)
  }

  datatype Registry = Registry(
    streams: seq<ChunkStream>,
    defaultChunkSize: nat,
    maxMsgLength: nat,
    maxActiveCsids: nat,
    maxReassemblyBytes: nat)

  function TotalBytes(streams: seq<ChunkStream>): nat {
    if streams == [] then 0
    else TotalBytes(streams[..|streams| - 1]) + |streams[|streams| - 1].partial|
  }

  function ActiveCount(streams: seq<ChunkStream>): nat {
    if streams == [] then 0
    else ActiveCount(streams[..|streams| - 1]) + if streams[|streams| - 1].reassembling then 1 else 0
  }

  /** Position of a chunk-stream id in the table. */
  function Find(streams: seq<ChunkStream>, csid: u32): (r: Option<nat>)
    ensures r.Some? ==> r.value < |streams| && streams[r.value].csid == csid
  {
    if streams == [] then None
    else if streams[|streams| - 1].csid == csid then Some(|streams| - 1)
    else Find(streams[..|streams| - 1], csid)
  }

  function Get(reg: Registry, csid: u32): (r: Option<ChunkStream>)
    ensures r.Some? ==> r.value.csid == csid
  {
    match Find(reg.streams, csid)
    case Some(i) => Some(reg.streams[i])
    case None => None
  }

  /** Stores a stream: in its slot, or in a new one at the end. */
  function Put(reg: Registry, s: ChunkStream): Registry {
    match Find(reg.streams, s.csid)
    case Some(i) => reg.(streams := reg.streams[i := s])
    case None => reg.(streams := reg.streams + [s])
  }

  /** No two slots share an id: each slot is the one its id is found at. */
  ghost predicate DistinctCsids(streams: seq<ChunkStream>) {
    forall i {:trigger Find(streams, streams[i].csid)} :: 0 <= i < |streams| ==> Find(streams, streams[i].csid) == Some(i)
  }

  /** What holds of the registry in every reachable state, the three caps included. */
  ghost predicate ValidRegistry(reg: Registry) {
    && reg.defaultChunkSize >= 1
    && (forall i {:trigger StreamOk(reg.streams[i])} :: 0 <= i < |reg.streams| ==> StreamOk(reg.streams[i]))
    && DistinctCsids(reg.streams)
    && |reg.streams| <= MAX_CHUNK_STREAMS
    && ActiveCount(reg.streams) <= reg.maxActiveCsids
    && TotalBytes(reg.streams) <= reg.maxReassemblyBytes
  }

  function EmptyRegistry(chunkSize: nat, maxMsgLength: nat, maxActive: nat, maxBytes: nat): Registry {
    Registry([], chunkSize, maxMsgLength, maxActive, maxBytes)
  }

  /** Out-of-range sizes are ignored; a valid one applies to all streams, present and future. */
  function SetAllChunkSize(reg: Registry, n: nat): Registry {
    if n < DEFAULT_CHUNK_SIZE || n > MAX_PEER_CHUNK_SIZE then reg
    else reg.(defaultChunkSize := n,
              streams := seq(|reg.streams|, i requires 0 <= i < |reg.streams| => reg.streams[i].(chunkSize := n)))
  }

  function AbortStream(reg: Registry, csid: u32): Registry {
    match Get(reg, csid)
    case Some(s) => Put(reg, EmptiedStream(s))
    case None => reg
  }

  function ResetStream(reg: Registry, csid: u32): Registry {
    if Get(reg, csid).Some? then Put(reg, NewStream(csid, reg.defaultChunkSize)) else reg
  }

  // Sums over the table and its updates

  lemma {:induction false} TotalUpdate(streams: seq<ChunkStream>, i: nat, s: ChunkStream)
    requires i < |streams|
    ensures TotalBytes(streams[i := s]) == TotalBytes(streams) - |streams[i].partial| + |s.partial|
    ensures |streams[i].partial| <= TotalBytes(streams)
  {
    var n := |streams| - 1;
    if i < n {
      TotalUpdate(streams[..n], i, s);
      assert streams[i := s][..n] == streams[..n][i := s];
    } else {
      assert streams[i := s][..n] == streams[..n];
    }
  }

  lemma {:induction false} ActiveUpdate(streams: seq<ChunkStream>, i: nat, s: ChunkStream)
    requires i < |streams|
    ensures ActiveCount(streams[i := s])
         == ActiveCount(streams) - (if streams[i].reassembling then 1 else 0) + (if s.reassembling then 1 else 0)
    ensures streams[i].reassembling ==> 1 <= ActiveCount(streams)
  {
    var n := |streams| - 1;
    if i < n {
      ActiveUpdate(streams[..n], i, s);
      assert streams[i := s][..n] == streams[..n][i := s];
    } else {
      assert streams[i := s][..n] == streams[..n];
    }
  }

  lemma SumsAppend(streams: seq<ChunkStream>, s: ChunkStream)
    ensures TotalBytes(streams + [s]) == TotalBytes(streams) + |s.partial|
    ensures ActiveCount(streams + [s]) == ActiveCount(streams) + if s.reassembling then 1 else 0
  {
    assert (streams + [s])[..|streams|] == streams;
  }

  /** Rewriting streams without touching their partial messages keeps both sums. */
  lemma {:induction false} SumsSame(a: seq<ChunkStream>, b: seq<ChunkStream>)
    requires |a| == |b|
    requires forall i :: 0 <= i < |a| ==> a[i].partial == b[i].partial && a[i].reassembling == b[i].reassembling
    ensures TotalBytes(a) == TotalBytes(b) && ActiveCount(a) == ActiveCount(b)
  {
    if a != [] {
      SumsSame(a[..|a| - 1], b[..|b| - 1]);
    }
  }

  lemma {:induction false} FindUpdate(streams: seq<ChunkStream>, i: nat, s: ChunkStream, csid: u32)
    requires i < |streams| && streams[i].csid == s.csid
    ensures Find(streams[i := s], csid) == Find(streams, csid)
  {
    var n := |streams| - 1;
    if i < n {
      FindUpdate(streams[..n], i, s, csid);
      assert streams[i := s][..n] == streams[..n][i := s];
    } else {
      assert streams[i := s][..n] == streams[..n];
    }
  }

  lemma FindAppend(streams: seq<ChunkStream>, s: ChunkStream, csid: u32)
    ensures Find(streams + [s], csid) == if csid == s.csid then Some(|streams|) else Find(streams, csid)
  {
    assert (streams + [s])[..|streams|] == streams;
  }

  lemma {:induction false} FindSameCsids(a: seq<ChunkStream>, b: seq<ChunkStream>, csid: u32)
    requires |a| == |b| && forall i :: 0 <= i < |a| ==> a[i].csid == b[i].csid
    ensures Find(a, csid) == Find(b, csid)
  {
    if a != [] {
      FindSameCsids(a[..|a| - 1], b[..|b| - 1], csid);
    }
  }

  /** Lookups in the table after `Put`. */
  lemma FindPut(reg: Registry, s: ChunkStream, csid: u32)
    ensures Find(Put(reg, s).streams, csid)
         == if csid == s.csid && Find(reg.streams, csid).None? then Some(|reg.streams|) else Find(reg.streams, csid)
  {
    match Find(reg.streams, s.csid)
    case Some(i) => FindUpdate(reg.streams, i, s, csid);
    case None => FindAppend(reg.streams, s, csid);
  }

  lemma PutDistinct(reg: Registry, s: ChunkStream)
    requires DistinctCsids(reg.streams)
    ensures DistinctCsids(Put(reg, s).streams)
  {
    var after := Put(reg, s).streams;
    forall i | 0 <= i < |after|
      ensures Find(after, after[i].csid) == Some(i)
    {
      FindPut(reg, s, after[i].csid);
      if i < |reg.streams| {
        assert Find(reg.streams, reg.streams[i].csid) == Some(i);
      }
    }
  }

  /** Storing one stream leaves the lookups of all other ids alone. */
  lemma GetPut(reg: Registry, s: ChunkStream, csid: u32)
    ensures Get(Put(reg, s), csid) == if csid == s.csid then Some(s) else Get(reg, csid)
  {
    FindPut(reg, s, csid);
  }

  /** Replacing or adding a good stream within the caps keeps the registry valid. */
  lemma PutValid(reg: Registry, s: ChunkStream)
    requires ValidRegistry(reg) && StreamOk(s)
    requires Get(reg, s.csid).None? ==> |reg.streams| < MAX_CHUNK_STREAMS
    requires var was := Get(reg, s.csid);
             && TotalBytes(reg.streams) - (if was.Some? then |was.value.partial| else 0) + |s.partial|
                <= reg.maxReassemblyBytes
             && (s.reassembling && !(was.Some? && was.value.reassembling) ==> ActiveCount(reg.streams) < reg.maxActiveCsids)
    ensures ValidRegistry(Put(reg, s))
    ensures var was := Get(reg, s.csid);
            && TotalBytes(Put(reg, s).streams)
               == TotalBytes(reg.streams) - (if was.Some? then |was.value.partial| else 0) + |s.partial|
            && ActiveCount(Put(reg, s).streams)
               == ActiveCount(reg.streams) - (if was.Some? && was.value.reassembling then 1 else 0)
                  + (if s.reassembling then 1 else 0)
  {
    PutDistinct(reg, s);
    match Find(reg.streams, s.csid)
    case Some(i) =>
      TotalUpdate(reg.streams, i, s);
      ActiveUpdate(reg.streams, i, s);
    case None =>
      SumsAppend(reg.streams, s);
  }

  lemma InUse(reg: Registry, csid: u32)
    requires ValidRegistry(reg)
    ensures Get(reg, csid).Some? ==> StreamOk(Get(reg, csid).value)
  {
    match Find(reg.streams, csid)
    case Some(i) => assert StreamOk(reg.streams[i]);
    case None =>
  }

  lemma SetAllChunkSizeKeepsValid(reg: Registry, n: nat)
    requires ValidRegistry(reg)
    ensures ValidRegistry(SetAllChunkSize(reg, n))
  {
    var after := SetAllChunkSize(reg, n).streams;
    SumsSame(after, reg.streams);
    forall i | 0 <= i < |after|
      ensures StreamOk(after[i]) && Find(after, after[i].csid) == Some(i)
    {
      FindSameCsids(after, reg.streams, after[i].csid);
      assert StreamOk(reg.streams[i]) && Find(reg.streams, reg.streams[i].csid) == Some(i);
    }
  }

  lemma AbortKeepsValid(reg: Registry, csid: u32)
    requires ValidRegistry(reg)
    ensures ValidRegistry(AbortStream(reg, csid))
  {
    match Find(reg.streams, csid)
    case Some(i) =>
      assert StreamOk(reg.streams[i]);
      TotalUpdate(reg.streams, i, EmptiedStream(reg.streams[i]));
      PutValid(reg, EmptiedStream(reg.streams[i]));
    case None =>
  }

  /** Everything a later compressed header inherits. */
  function HeaderContext(s: ChunkStream): (bool, u32, nat, byte, u32, bool, u32, nat) {
    (s.hasMessageHeader, s.timestamp, s.msgLength, s.msgTypeId, s.msgStreamId, s.extTs, s.lastDelta, s.chunkSize)
  }

  /** An abort drops one partial message, and nothing else on that stream or on any other. */
  lemma AbortDropsOnlyThePartial(reg: Registry, csid: u32, other: u32)
    ensures other != csid ==> Get(AbortStream(reg, csid), other) == Get(reg, other)
    ensures match Get(reg, csid)
            case None => AbortStream(reg, csid) == reg
            case Some(s) =>
              && Get(AbortStream(reg, csid), csid).Some?
              && var t := Get(AbortStream(reg, csid), csid).value;
                 t.partial == [] && t.bytesRead == 0 && !t.reassembling && HeaderContext(t) == HeaderContext(s)
  {
    if Get(reg, csid).Some? {
      GetPut(reg, EmptiedStream(Get(reg, csid).value), csid);
      GetPut(reg, EmptiedStream(Get(reg, csid).value), other);
    }
  }

  lemma ResetKeepsValid(reg: Registry, csid: u32)
    requires ValidRegistry(reg)
    ensures ValidRegistry(ResetStream(reg, csid))
  {
    match Find(reg.streams, csid)
    case Some(i) =>
      TotalUpdate(reg.streams, i, NewStream(csid, reg.defaultChunkSize));
      PutValid(reg, NewStream(csid, reg.defaultChunkSize));
    case None =>
  }

  lemma GetSetAllChunkSize(reg: Registry, n: nat, csid: u32)
    requires DEFAULT_CHUNK_SIZE <= n <= MAX_PEER_CHUNK_SIZE
    ensures Get(SetAllChunkSize(reg, n), csid)
         == match Get(reg, csid) { case Some(s) => Some(s.(chunkSize := n)) case None => None }
  {
    FindSameCsids(SetAllChunkSize(reg, n).streams, reg.streams, csid);
  }
}
