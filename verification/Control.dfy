/** The protocol-control payloads of src/message/control.rs that steer the chunk layer. */
module Control {
  import opened Bytes
  import opened ChunkState

  const MSG_SET_CHUNK_SIZE: byte := 0x01
  const MSG_ABORT_MESSAGE: byte := 0x02
  const MSG_ACKNOWLEDGEMENT: byte := 0x03

  const MIN_CHUNK_SIZE: nat := 128
  const MIN_WINDOW_ACK_SIZE: nat := 1024

  /** Sizes under 128 and a set top bit are refused; sizes above any message length are clamped. */
  function ReadSetChunkSize(data: bytes): (r: Result<nat>)
    ensures r.Ok? ==> MIN_CHUNK_SIZE <= r.value <= MAX_PEER_CHUNK_SIZE
  {
    if |data| < 4 then Err(Protocol)
    else
      var cs := FromBe32(data);
      if cs < MIN_CHUNK_SIZE || cs >= 0x8000_0000 then Err(Protocol)
      else Ok(Min(cs, MAX_PEER_CHUNK_SIZE))
  }

  function ReadAbortMessage(data: bytes): Result<u32> {
    if |data| < 4 then Err(Protocol) else Ok(FromBe32(data))
  }

  /** A window of zero disables acknowledgements; tiny windows are refused. */
  function ReadWindowAckSize(data: bytes): (r: Result<u32>)
    ensures r.Ok? ==> r.value == 0 || MIN_WINDOW_ACK_SIZE <= r.value
  {
    if |data| < 4 then Err(Protocol)
    else
      var win := FromBe32(data);
      if win > 0 && win < MIN_WINDOW_ACK_SIZE then Err(Protocol) else Ok(win)
  }

  /** Announced sizes in the accepted range survive the round trip. */
  lemma SetChunkSizeRoundTrip(n: nat)
    requires MIN_CHUNK_SIZE <= n <= MAX_PEER_CHUNK_SIZE
    ensures ReadSetChunkSize(Be32(n)) == Ok(n)
  {
    Be32Decodes(n, []);
    assert Be32(n) + [] == Be32(n);
  }
}
