/**
 The growable byte buffer of src/buffer.rs: a backing vector with a write
 cursor (`size`) and a read cursor (`readPos`), rewound lazily, compacted only
 when the tail is full, and grown by doubling up to a hard cap. Clients see
 only `Contents()`, the unread bytes.
 */
module Buffers {
  import opened Bytes

  const BUFFER_MAX_SIZE: nat := 64 * 1024 * 1024
  const BUFFER_INITIAL_SIZE: nat := 4096
  const BUFFER_RESET_CAPACITY: nat := BUFFER_INITIAL_SIZE

  function Zeros(n: nat): (s: bytes)
    ensures |s| == n
  {
    seq(n, _ => 0)
  }

  class Buffer {
    var data: bytes
    var size: nat
    var readPos: nat
    const owned: bool

    ghost predicate Valid()
      reads this
    {
      readPos <= size <= |data|
    }

    /** The abstract value: the bytes written and not yet read, in order. */
    function Contents(): bytes
      requires Valid()
      reads this
    {
      data[readPos..size]
    }

    function Available(): (n: nat)
      requires Valid()
      reads this
      ensures n == |Contents()|
    {
      size - readPos
    }

    /** How many unread bytes the buffer may hold: only an owned buffer may reallocate. */
    function Limit(): nat
      reads this
    {
      if owned then BUFFER_MAX_SIZE else Min(BUFFER_MAX_SIZE, |data|)
    }

    /** Whether `additional` more bytes fit; the cap is on the unread bytes. */
    predicate HasRoom(additional: nat)
      requires Valid()
      reads this
    {
      |Contents()| + additional <= Limit()
    }

    constructor ()
      ensures Valid() && Contents() == [] && Limit() == BUFFER_MAX_SIZE && owned
    {
      data := Zeros(BUFFER_INITIAL_SIZE);
      size, readPos, owned := 0, 0, true;
    }

    constructor WithCapacity(capacity: nat)
      ensures Valid() && Contents() == [] && Limit() == BUFFER_MAX_SIZE && |data| == capacity
    {
      data := Zeros(capacity);
      size, readPos, owned := 0, 0, true;
    }

    constructor FromSlice(s: bytes)
      ensures Valid() && Contents() == s && Limit() == BUFFER_MAX_SIZE
    {
      data := s;
      size, readPos, owned := |s|, 0, true;
    }

    /** A buffer of fixed capacity, full at first; it is never reallocated. */
    constructor FromStatic(s: bytes)
      ensures Valid() && Contents() == s && Limit() == Min(BUFFER_MAX_SIZE, |s|)
    {
      data := s;
      size, readPos, owned := |s|, 0, false;
    }

    /** Appends `s`, or changes nothing when it does not fit. */
    method Write(s: bytes) returns (r: Result<nat>)
      requires Valid()
      modifies this
      ensures Valid()
      ensures r.Ok? <==> s == [] || old(HasRoom(|s|))
      ensures r == if r.Ok? then Ok(|s|) else Err(Internal)
      ensures Contents() == if r.Ok? then old(Contents()) + s else old(Contents())
      ensures r.Ok? && s != [] ==> |Contents()| <= Limit() <= BUFFER_MAX_SIZE
      ensures Limit() == old(Limit())
    {
      if s == [] {
        return Ok(0);
      }
      var room := MakeRoom(|s|);
      if room.Err? {
        return Err(room.error);
      }
      data := data[..size] + s + data[size + |s|..];
      size := size + |s|;
      return Ok(|s|);
    }

    /** Makes room without writing, so that a multi-part write cannot fail half-way. */
    method Reserve(additional: nat) returns (r: Result<()>)
      requires Valid()
      modifies this
      ensures Valid() && Contents() == old(Contents())
      ensures r == if old(HasRoom(additional)) then Ok(()) else Err(Internal)
      ensures Limit() == old(Limit())
    {
      r := MakeRoom(additional);
    }

    /** Reads exactly `n` bytes, or none when fewer are available. */
    method Read(n: nat) returns (r: Result<bytes>)
      requires Valid()
      modifies this`readPos
      ensures Valid()
      ensures r == if n <= |old(Contents())| then Ok(old(Contents())[..n]) else Err(Io)
      ensures Contents() == if r.Ok? then old(Contents())[n..] else old(Contents())
    {
      if readPos + n > size {
        return Err(Io);
      }
      var out := data[readPos..readPos + n];
      assert out == Contents()[..n];
      readPos := readPos + n;
      return Ok(out);
    }

    method Reset()
      modifies this
      ensures Valid() && Contents() == []
      ensures owned ==> |data| <= BUFFER_RESET_CAPACITY
      ensures Limit() == old(Limit())
    {
      size, readPos := 0, 0;
      if owned && |data| > BUFFER_RESET_CAPACITY {
        data := data[..BUFFER_RESET_CAPACITY];
      }
    }

    /** Shrinks an allocation that grew past `keep` once most of it has been read. */
    method ReleaseExcess(keep: nat)
      requires Valid()
      modifies this
      ensures Valid() && Contents() == old(Contents())
      ensures |data| == if owned && old(|data|) > keep && |old(Contents())| <= keep / 2
                        then Min(old(|data|), Max(|old(Contents())|, BUFFER_INITIAL_SIZE))
                        else old(|data|)
    {
      if !owned || |data| <= keep || Available() > keep / 2 {
        return;
      }
      Compact();
      var newLen := Max(size, BUFFER_INITIAL_SIZE);
      if newLen < |data| {
        data := data[..newLen];
      }
    }

    /** Skips up to `n` bytes. */
    method Drain(n: nat)
      requires Valid()
      modifies this`readPos
      ensures Valid()
      ensures Contents() == old(Contents())[Min(n, |old(Contents())|)..]
    {
      readPos := readPos + Min(n, Available());
    }

    /** Moves the unread bytes out; a fixed buffer gets its capacity back. */
    method Take() returns (out: bytes)
      requires Valid()
      modifies this
      ensures Valid()
      ensures out == old(Contents()) && Contents() == []
      ensures |data| == if owned then 0 else old(|data|)
    {
      var fixedCapacity := |data|;
      out := data[..size];
      if readPos > 0 {
        out := out[Min(readPos, |out|)..];
      }
      data := [];
      size, readPos := 0, 0;
      if !owned {
        data := Zeros(fixedCapacity);
      }
    }

    method MakeRoom(additional: nat) returns (r: Result<()>)
      requires Valid()
      modifies this
      ensures Valid() && Contents() == old(Contents())
      ensures r == if old(HasRoom(additional)) then Ok(()) else Err(Internal)
      ensures r.Ok? ==> size + additional <= |data|
      ensures Limit() == old(Limit())
    {
      if readPos > 0 && readPos >= size {
        size, readPos := 0, 0;
      }
      if additional > BUFFER_MAX_SIZE || Available() > BUFFER_MAX_SIZE - additional {
        return Err(Internal);
      }
      if additional <= |data| - size {
        return Ok(());
      }
      Compact();
      r := EnsureCapacity(size + additional);
    }

    method Compact()
      requires Valid()
      modifies this
      ensures Valid() && Contents() == old(Contents())
      ensures readPos == 0 && |data| == old(|data|)
    {
      if readPos == 0 {
        return;
      }
      if readPos >= size {
        size, readPos := 0, 0;
        return;
      }
      var unread := size - readPos;
      data := data[readPos..size] + data[unread..];
      size, readPos := unread, 0;
    }

    method EnsureCapacity(needed: nat) returns (r: Result<()>)
      requires Valid() && readPos == 0
      modifies this`data
      ensures Valid() && Contents() == old(Contents())
      ensures r.Ok? <==> needed <= old(|data|) || (owned && needed <= BUFFER_MAX_SIZE)
      ensures r == if r.Ok? then Ok(()) else Err(Internal)
      ensures r.Ok? ==> needed <= |data|
      ensures Limit() == old(Limit())
    {
      if needed <= |data| {
        return Ok(());
      }
      if !owned || needed > BUFFER_MAX_SIZE {
        return Err(Internal);
      }
      var newCap := Max(|data|, BUFFER_INITIAL_SIZE);
      while newCap < needed
        invariant |data| <= newCap && 0 < newCap
        decreases needed - newCap
      {
        newCap := newCap * 2;
        if newCap > BUFFER_MAX_SIZE {
          newCap := BUFFER_MAX_SIZE;
          break;
        }
      }
      data := data + Zeros(newCap - |data|);
      return Ok(());
    }
  }

  // Runs against a bounded FIFO of bytes

  datatype Op =
    | OpWrite(s: bytes) | OpReserve(n: nat) | OpRead(n: nat) | OpDrain(n: nat)
    | OpTake | OpReset | OpRelease(keep: nat)

  datatype Outcome = Done | Refused | Got(s: bytes)

  /** What one operation does to a FIFO that may hold `limit` bytes. */
  function FifoStep(c: bytes, limit: nat, op: Op): (Outcome, bytes) {
    match op
    case OpWrite(s) => if s == [] || |c| + |s| <= limit then (Done, c + s) else (Refused, c)
    case OpReserve(n) => (if |c| + n <= limit then Done else Refused, c)
    case OpRead(n) => if n <= |c| then (Got(c[..n]), c[n..]) else (Refused, c)
    case OpDrain(n) => (Done, c[Min(n, |c|)..])
    case OpTake => (Got(c), [])
    case OpReset => (Done, [])
    case OpRelease(_) => (Done, c)
  }

  function FifoRun(c: bytes, limit: nat, ops: seq<Op>): (seq<Outcome>, bytes) {
    if ops == [] then ([], c)
    else
      var (outs, c1) := FifoRun(c, limit, ops[..|ops| - 1]);
      var (out, c2) := FifoStep(c1, limit, ops[|ops| - 1]);
      (outs + [out], c2)
  }

  /** One operation on a buffer is one operation on the FIFO, wherever the cursors are. */
  method Perform(buf: Buffer, op: Op) returns (out: Outcome)
    requires buf.Valid()
    modifies buf
    ensures buf.Valid() && buf.Limit() == old(buf.Limit())
    ensures (out, buf.Contents()) == FifoStep(old(buf.Contents()), old(buf.Limit()), op)
  {
    match op {
      case OpWrite(s) =>
        var r := buf.Write(s);
        assert s == [] ==> old(buf.Contents()) + s == old(buf.Contents());
        out := if r.Ok? then Done else Refused;
      case OpReserve(n) =>
        var r := buf.Reserve(n);
        out := if r.Ok? then Done else Refused;
      case OpRead(n) =>
        var r := buf.Read(n);
        out := if r.Ok? then Got(r.value) else Refused;
      case OpDrain(n) =>
        buf.Drain(n);
        out := Done;
      case OpTake =>
        var s := buf.Take();
        out := Got(s);
      case OpReset =>
        buf.Reset();
        out := Done;
      case OpRelease(keep) =>
        buf.ReleaseExcess(keep);
        out := Done;
    }
  }

  /** Over every run the buffer answers and ends as the FIFO does. */
  method Replay(buf: Buffer, ops: seq<Op>) returns (outs: seq<Outcome>)
    requires buf.Valid()
    modifies buf
    ensures buf.Valid() && buf.Limit() == old(buf.Limit())
    ensures (outs, buf.Contents()) == FifoRun(old(buf.Contents()), old(buf.Limit()), ops)
  {
    hide FifoStep;
    outs := [];
    for i := 0 to |ops|
      invariant buf.Valid() && buf.Limit() == old(buf.Limit())
      invariant (outs, buf.Contents()) == FifoRun(old(buf.Contents()), old(buf.Limit()), ops[..i])
    {
      assert ops[..i + 1][..i] == ops[..i];
      var out := Perform(buf, ops[i]);
      outs := outs + [out];
    }
    assert ops[..|ops|] == ops;
  }

  /** The bytes an operation adds. */
  function Added(now: bytes, limit: nat, op: Op): bytes {
    if op.OpWrite? && FifoStep(now, limit, op).0.Done? then op.s else []
  }

  /** What was written and accepted, in order. */
  function Accepted(c: bytes, limit: nat, ops: seq<Op>): bytes {
    if ops == [] then []
    else
      var before := ops[..|ops| - 1];
      Accepted(c, limit, before) + Added(FifoRun(c, limit, before).1, limit, ops[|ops| - 1])
  }

  predicate IsSuffix(left: bytes, all: bytes) {
    |left| <= |all| && left == all[|all| - |left|..]
  }

  /**
   Nothing is reordered, duplicated or invented: what is unread after a run is a
   suffix of what was there before followed by what was accepted since, and it
   exceeds the limit only if it did at the start.
   */
  lemma {:induction false} UnreadIsASuffix(c: bytes, limit: nat, ops: seq<Op>)
    ensures IsSuffix(FifoRun(c, limit, ops).1, c + Accepted(c, limit, ops))
    ensures |FifoRun(c, limit, ops).1| <= Max(limit, |c|)
    decreases |ops|
  {
    if ops == [] {
      assert c + [] == c;
    } else {
      hide FifoStep, IsSuffix, Added;
      var before, op := ops[..|ops| - 1], ops[|ops| - 1];
      UnreadIsASuffix(c, limit, before);
      var now := FifoRun(c, limit, before).1;
      var all := c + Accepted(c, limit, before);
      StepIsASuffix(now, limit, op, all);
      assert all + Added(now, limit, op) == c + Accepted(c, limit, ops);
    }
  }

  lemma StepIsASuffix(now: bytes, limit: nat, op: Op, all: bytes)
    requires IsSuffix(now, all)
    ensures var left := FifoStep(now, limit, op).1;
            IsSuffix(left, all + Added(now, limit, op)) && |left| <= Max(limit, |now|)
  {
    match op
    case OpWrite(s) =>
      if FifoStep(now, limit, op).0.Done? {
        assert (all + s)[|all| - |now|..] == now + s;
      } else {
        assert all + [] == all;
      }
    case _ =>
      assert all + [] == all;
  }
}
