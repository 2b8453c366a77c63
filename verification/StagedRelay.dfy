/**
 The relay fan-out for players that take their media straight from the arena
 (src/server/mod.rs): a staging player is where a player with an unlimited send
 buffer would be, and what its socket takes and its send buffer keeps is together
 the wire of the frames accepted for it.
 */
module StagedRelay {
  import opened Bytes
  import opened Buffers
  import opened ChunkState
  import opened ChunkReader
  import opened MediaOut
  import opened Receivers
  import opened Sync
  import opened Relay
  import opened StagedSends

  /** A player with nothing queued, and the headers and bodies staged for it. */
  datatype Staging = Staging(p: Player, parts: seq<bytes>)

  function Stopped(s: Staging): Staging {
    s.(p := s.p.(live := false))
  }

  /** `full` holds the pairs of player and frame that found no room for a header in the arena. */
  function StagedServed(s: Staging, f: Frame, full: bool): Staging {
    match Encoded(f, MediaChunkSize(s.p))
    case None => Stopped(s)
    case Some(body) =>
      match Choose(s.p.last, s.p.compact, InfoFor(s.p, f), |f.payload|)
      case Err(_) => Stopped(s)
      case Ok(h) =>
        if full then Stopped(s)
        else Staging(s.p.(last := Commit(s.p.last, h)), s.parts + [HeaderBytes(h), body])
  }

  function StagedTurn(s: Staging, i: nat, frames: seq<Frame>, k: nat, flow: Flow, full: set<(nat, nat)>): Staging
    requires k < |frames|
  {
    if !s.p.live then s
    else
      match flow(i, k)
      case Send => StagedServed(s, frames[k], (i, k) in full)
      case Skip => s
      case Disconnect => Stopped(s)
  }

  /** A staging player after the frames from `k` on. */
  function StagedRun(s: Staging, i: nat, frames: seq<Frame>, k: nat, flow: Flow, full: set<(nat, nat)>): Staging
    requires k <= |frames|
    decreases |frames| - k
  {
    if k == |frames| then s
    else StagedRun(StagedTurn(s, i, frames, k, flow, full), i, frames, k + 1, flow, full)
  }

  // Staging is buffering without a limit

  /** The same player with a send buffer that holds its parts. */
  function Buffered(s: Staging, limit: nat): Player {
    s.p.(queue := Concat(s.parts), limit := limit)
  }

  /** An arena without room ends the player, as flow control can. */
  function FlowWith(flow: Flow, full: set<(nat, nat)>): Flow {
    (i: nat, k: nat) => if (i, k) in full && flow(i, k).Send? then Disconnect else flow(i, k)
  }

  lemma ConcatMore(parts: seq<bytes>, header: bytes, body: bytes)
    ensures Concat(parts + [header, body]) == Concat(parts) + header + body
  {
    ConcatTwo(parts, [header, body]);
    assert [header, body][1..] == [body] && [body][1..] == [];
    assert body + [] == body;
    assert Concat([header, body]) == header + Concat([body]);
    assert Concat(parts) + (header + body) == Concat(parts) + header + body;
  }

  lemma TurnGrows(s: Staging, i: nat, frames: seq<Frame>, k: nat, flow: Flow, full: set<(nat, nat)>)
    requires k < |frames|
    ensures |Concat(s.parts)| <= |Concat(StagedTurn(s, i, frames, k, flow, full).parts)|
  {
    hide Encoded, Choose, HeaderBytes, Concat;
    var s' := StagedTurn(s, i, frames, k, flow, full);
    if s'.parts != s.parts {
      ConcatTwo(s.parts, s'.parts[|s.parts|..]);
    }
  }

  lemma {:induction false} RunGrows(s: Staging, i: nat, frames: seq<Frame>, k: nat, flow: Flow, full: set<(nat, nat)>)
    requires k <= |frames|
    ensures |Concat(s.parts)| <= |Concat(StagedRun(s, i, frames, k, flow, full).parts)|
    decreases |frames| - k
  {
    hide StagedTurn, Concat;
    if k < |frames| {
      TurnGrows(s, i, frames, k, flow, full);
      RunGrows(StagedTurn(s, i, frames, k, flow, full), i, frames, k + 1, flow, full);
    }
  }

  lemma TurnAsBuffered(
    s: Staging, i: nat, frames: seq<Frame>, k: nat, flow: Flow, full: set<(nat, nat)>, limit: nat)
    requires k < |frames| && |Concat(StagedTurn(s, i, frames, k, flow, full).parts)| <= limit
    ensures Buffered(StagedTurn(s, i, frames, k, flow, full), limit)
         == Turned(Buffered(s, limit), i, frames, k, FlowWith(flow, full))
  {
    hide Encoded, Choose, HeaderBytes, Concat;
    var f := frames[k];
    if Encoded(f, MediaChunkSize(s.p)).Some? && Choose(s.p.last, s.p.compact, InfoFor(s.p, f), |f.payload|).Ok? {
      var h := Choose(s.p.last, s.p.compact, InfoFor(s.p, f), |f.payload|).value;
      ConcatMore(s.parts, HeaderBytes(h), Encoded(f, MediaChunkSize(s.p)).value);
    }
  }

  /**
   Over every run, a staging player is where the same player would be with a send
   buffer large enough for all that is staged: the same header history, stopped at
   the same frame, and the same bytes.
   */
  lemma {:induction false} StagingIsBuffering(
    s: Staging, i: nat, frames: seq<Frame>, k: nat, flow: Flow, full: set<(nat, nat)>, limit: nat)
    requires k <= |frames| && |Concat(StagedRun(s, i, frames, k, flow, full).parts)| <= limit
    ensures Buffered(StagedRun(s, i, frames, k, flow, full), limit)
         == Relayed(Buffered(s, limit), i, frames, k, FlowWith(flow, full))
    decreases |frames| - k
  {
    hide StagedTurn, Turned, Concat, FlowWith;
    if k < |frames| {
      var s' := StagedTurn(s, i, frames, k, flow, full);
      RunGrows(s', i, frames, k + 1, flow, full);
      TurnAsBuffered(s, i, frames, k, flow, full, limit);
      StagingIsBuffering(s', i, frames, k + 1, flow, full, limit);
    }
  }

  /**
   So a receiver in step with a staging player recovers, from what is staged,
   exactly the frames meant for it, up to the one that stopped it, if one did.
   */
  lemma StagedPlayerReceives(
    p: Player, i: nat, frames: seq<Frame>, flow: Flow, full: set<(nat, nat)>, reg: Registry, listening: bool)
    returns (got: seq<Message>, accepted: seq<SendEvent>)
    requires p.live && p.queue == [] && InSync(SenderOf(p), reg)
    requires forall k :: 0 <= k < |frames| ==> Fits(reg, |frames[k].payload|)
    ensures var s := StagedRun(Staging(p, []), i, frames, 0, flow, full);
            var meant := ContentsOf(p, Meant(i, frames, 0, FlowWith(flow, full)));
            && Contents(got) <= meant && (s.p.live ==> Contents(got) == meant)
            && Concat(s.parts) == WireOfAll(SenderOf(p), accepted)
            && var r := Drain(Receiving(reg, Concat(s.parts), listening));
               if AllShow(listening, accepted) then
                 && r.Running? && r.unread == [] && r.delivered == got
                 && r.handled == UnitsOf(listening, Contents(got))
               else r.Failed?
  {
    hide Drain, WireOfAll, SentByAll, InSync, Relay.Accepted, Relayed, Meant, ContentsOf, Fits, Contents, Shows, UnitsOf,
      FlowWith, StagedRun;
    var s := StagedRun(Staging(p, []), i, frames, 0, flow, full);
    var limit, flow' := |Concat(s.parts)|, FlowWith(flow, full);
    var q := Buffered(Staging(p, []), limit);
    StagingIsBuffering(Staging(p, []), i, frames, 0, flow, full, limit);
    assert q.queue == [] && SenderOf(q) == SenderOf(p);
    accepted := Relay.Accepted(q, i, frames, 0, flow');
    RelayedIsWire(q, i, frames, 0, flow');
    SameContents(p, q, Meant(i, frames, 0, flow'));
    got := EveryPlayerReceives(q, i, frames, flow', reg, listening);
    var wire := Concat(s.parts);
    assert [] + WireOfAll(SenderOf(p), accepted) == WireOfAll(SenderOf(p), accepted) && wire[0..] == wire;
  }

  lemma SameContents(p: Player, q: Player, fs: seq<Frame>)
    requires p.msgStreamId == q.msgStreamId
    ensures ContentsOf(p, fs) == ContentsOf(q, fs)
  {
  }

  // The arena of a batch

  /** Header and body of each staged message. */
  type Log = seq<(bytes, bytes)>

  /** What the arena holds is what has been staged, and no body of it will be dropped. */
  ghost predicate Backed(messages: seq<Staged>, headers: bytes, bodies: seq<Body>, log: Log) {
    && |messages| == |log|
    && forall j :: 0 <= j < |log| ==>
         var m := messages[j];
         && m.from <= m.to <= |headers| && headers[m.from..m.to] == log[j].0
         && m.body < |bodies| && bodies[m.body].staged && bodies[m.body].contents == log[j].1
  }

  /** The parts of the messages at these indices. */
  function PartsAt(log: Log, indices: seq<nat>): seq<bytes>
    requires forall j :: 0 <= j < |indices| ==> indices[j] < |log|
  {
    if indices == [] then []
    else PartsAt(log, indices[..|indices| - 1]) + [log[indices[|indices| - 1]].0, log[indices[|indices| - 1]].1]
  }

  /** The parts staged for player `c`. */
  function PartsOf(log: Log, owners: seq<nat>, c: nat): seq<bytes>
    requires |log| == |owners|
  {
    AllBelow(owners, c, 0);
    PartsAt(log, AllOf(owners, c, 0))
  }

  lemma {:induction false} AllBelow(owners: seq<nat>, c: nat, from: nat)
    requires from <= |owners|
    ensures forall j :: 0 <= j < |AllOf(owners, c, from)| ==> AllOf(owners, c, from)[j] < |owners|
    decreases |owners| - from
  {
    if from < |owners| {
      AllBelow(owners, c, from + 1);
    }
  }

  lemma {:induction false} PartsInLonger(log: Log, x: (bytes, bytes), indices: seq<nat>)
    requires forall j :: 0 <= j < |indices| ==> indices[j] < |log|
    ensures PartsAt(log + [x], indices) == PartsAt(log, indices)
    decreases |indices|
  {
    if indices != [] {
      PartsInLonger(log, x, indices[..|indices| - 1]);
    }
  }

  /** One more message adds its header and body to its player's parts, and nothing to any other's. */
  lemma PartsAppend(log: Log, owners: seq<nat>, d: nat, x: (bytes, bytes), c: nat)
    requires |log| == |owners|
    ensures PartsOf(log + [x], owners + [d], c) == PartsOf(log, owners, c) + if d == c then [x.0, x.1] else []
  {
    var was := AllOf(owners, c, 0);
    AllAppend(owners, d, c, 0);
    AllBelow(owners, c, 0);
    PartsInLonger(log, x, was);
    if d == c {
      assert (was + [|owners|])[..|was|] == was;
    } else {
      assert was + [] == was;
    }
  }

  lemma BackedMore(messages: seq<Staged>, messages': seq<Staged>, headers: bytes, header: bytes, bodies: seq<Body>,
                   bodies': seq<Body>, log: Log, index: nat)
    requires Backed(messages, headers, bodies, log) && |messages'| == |messages| + 1
    requires index < |bodies| && bodies' == bodies[index := bodies[index].(staged := true)]
    requires forall i :: 0 <= i < |messages'| ==>
               var m := if i < |messages| then messages[i] else Staged(|headers|, |headers + header|, index, None);
               messages'[i].(next := None) == m.(next := None)
    ensures Backed(messages', headers + header, bodies', log + [(header, bodies[index].contents)])
  {
    forall j | 0 <= j < |messages'|
      ensures var m, x := messages'[j], (log + [(header, bodies[index].contents)])[j];
              && m.from <= m.to <= |headers + header| && (headers + header)[m.from..m.to] == x.0
              && m.body < |bodies'| && bodies'[m.body].staged && bodies'[m.body].contents == x.1
    {
      if j < |messages| {
        var m := messages[j];
        assert (headers + header)[m.from..m.to] == headers[m.from..m.to];
      }
    }
  }

  /** Bodies may be added behind, or unstaged ones dropped there. */
  lemma BackedStays(messages: seq<Staged>, headers: bytes, bodies: seq<Body>, bodies': seq<Body>, log: Log)
    requires Backed(messages, headers, bodies, log)
    requires bodies <= bodies'
          || (bodies' <= bodies && forall j :: |bodies'| <= j < |bodies| ==> !bodies[j].staged)
    ensures Backed(messages, headers, bodies', log)
  {
  }

  /**
   `relay_frame_to_player` once flow control has let the frame through: a player
   that can stage gets a header in the arena and a share of the body, another gets
   both copied into its send buffer.
   */
  method RelayFrameToPlayer(
    arena: BodyArena, stage: StagedMessages, ghost log: Log, i: nat, p: Player, plain: bool, frames: seq<Frame>, k: nat)
    returns (p': Player, full: bool, ghost log': Log)
    requires arena.Valid() && arena.Holds(frames) && k < |frames| && p.live
    requires stage.Valid() && Backed(stage.messages, stage.headers, arena.bodies, log)
    modifies arena, if arena.spare.Some? then {arena.spare.value} else {}, stage
    ensures arena.Valid() && arena.Holds(frames) && (arena.spare.None? || arena.spare == old(arena.spare))
    ensures stage.Valid() && Backed(stage.messages, stage.headers, arena.bodies, log') && |log'| == |stage.owners|
    ensures plain && p.queue == [] ==>
              var s := StagedServed(Staging(p, PartsOf(log, old(stage.owners), i)), frames[k], full);
              p' == s.p && PartsOf(log', stage.owners, i) == s.parts
    ensures !(plain && p.queue == []) ==> p' == Served(p, frames[k]) && log' == log && stage.owners == old(stage.owners)
    ensures forall c :: c != i ==> PartsOf(log', stage.owners, c) == PartsOf(log, old(stage.owners), c)
  {
    hide Encoded, SendShared, Choose, HeaderBytes, Backed, PartsOf, MediaChunkSize, InfoFor;
    log', full, p' := log, false, p;
    ghost var before := arena.bodies;
    var f := frames[k];
    var index := arena.BodyFor(frames, k, MediaChunkSize(p));
    BackedStays(stage.messages, stage.headers, before, arena.bodies, log);
    if index.None? {
      return p.(live := false), false, log;
    }
    var body := arena.bodies[index.value].contents;
    if !plain || p.queue != [] {
      p' := Updated(p, SendShared(p.queue, p.limit, p.last, p.compact, InfoFor(p, f), |f.payload|, body));
      return;
    }
    var chosen := Choose(p.last, p.compact, InfoFor(p, f), |f.payload|);
    if chosen.Err? {
      return p.(live := false), false, log;
    }
    var header := HeaderBytes(chosen.value);
    if |stage.headers| + |header| > BUFFER_MAX_SIZE {
      return p.(live := false), true, log;
    }
    p' := p.(last := Commit(p.last, chosen.value));
    Stage(arena, stage, log, i, header, index.value, frames);
    log' := log + [(header, body)];
    forall c
      ensures PartsOf(log', stage.owners, c) == PartsOf(log, old(stage.owners), c) + if c == i then [header, body] else []
    {
      PartsAppend(log, old(stage.owners), i, (header, body), c);
    }
  }

  /** A header goes to the end of the arena's headers, its message to the end of the player's list. */
  method Stage(
    arena: BodyArena, stage: StagedMessages, ghost log: Log, i: nat, header: bytes, index: nat, ghost frames: seq<Frame>)
    requires arena.Valid() && arena.Holds(frames) && index < |arena.bodies|
    requires stage.Valid() && Backed(stage.messages, stage.headers, arena.bodies, log)
    modifies arena`bodies, stage
    ensures arena.Valid() && arena.Holds(frames)
    ensures stage.Valid() && stage.owners == old(stage.owners) + [i]
    ensures Backed(stage.messages, stage.headers, arena.bodies, log + [(header, old(arena.bodies)[index].contents)])
  {
    hide Linked;
    var start := |stage.headers|;
    ghost var messages, headers, bodies := stage.messages, stage.headers, arena.bodies;
    stage.headers := stage.headers + header;
    arena.MarkStaged(index);
    stage.PushMessage(i, start, start + |header|, index);
    BackedMore(messages, stage.messages, headers, header, bodies, arena.bodies, log, index);
  }

  // A batch

  /** A staging player after the first `k` frames. */
  function RunTo(s: Staging, i: nat, frames: seq<Frame>, k: nat, flow: Flow, full: set<(nat, nat)>): Staging
    requires k <= |frames|
    decreases k
  {
    if k == 0 then s else StagedTurn(RunTo(s, i, frames, k - 1, flow, full), i, frames, k - 1, flow, full)
  }

  lemma {:induction false} RunToIsRun(s: Staging, i: nat, frames: seq<Frame>, k: nat, flow: Flow, full: set<(nat, nat)>)
    requires k <= |frames|
    ensures StagedRun(RunTo(s, i, frames, k, flow, full), i, frames, k, flow, full) == StagedRun(s, i, frames, 0, flow, full)
    decreases k
  {
    hide StagedTurn;
    if k > 0 {
      RunToIsRun(s, i, frames, k - 1, flow, full);
    }
  }

  /** Whether a later header finds room does not matter yet. */
  lemma {:induction false} RunToSoFar(
    s: Staging, i: nat, frames: seq<Frame>, k: nat, flow: Flow, full: set<(nat, nat)>, more: set<(nat, nat)>)
    requires k <= |frames| && forall x :: x in more ==> x.1 >= k
    ensures RunTo(s, i, frames, k, flow, full + more) == RunTo(s, i, frames, k, flow, full)
    decreases k
  {
    hide StagedServed;
    if k > 0 {
      RunToSoFar(s, i, frames, k - 1, flow, full, more);
    }
  }

  predicate Stages(p: Player, plain: bool) {
    plain && p.queue == []
  }

  /** Serving never empties a queue and staging never fills one, so that a player goes on as it began. */
  lemma TurnKeepsStaging(s: Staging, i: nat, frames: seq<Frame>, k: nat, flow: Flow, full: set<(nat, nat)>)
    requires k < |frames|
    ensures s.p.queue != [] ==> Turned(s.p, i, frames, k, flow).queue != []
    ensures StagedTurn(s, i, frames, k, flow, full).p.queue == s.p.queue
  {
    hide Encoded, Choose, HeaderBytes;
  }

  /** Player `i` after frame `k`, with the parts staged for it. */
  function NowAt(s: Staging, plain: bool, i: nat, frames: seq<Frame>, k: nat, flow: Flow, full: set<(nat, nat)>): Staging
    requires k < |frames|
  {
    if Stages(s.p, plain) then StagedTurn(s, i, frames, k, flow, full)
    else s.(p := Turned(s.p, i, frames, k, flow))
  }

  /** One frame to all players. */
  method FanOut(
    arena: BodyArena, stage: StagedMessages, ghost log: Log, players: seq<Player>, plain: seq<bool>, frames: seq<Frame>,
    k: nat, flow: Flow)
    returns (out: seq<Player>, ghost full: set<(nat, nat)>, ghost log': Log)
    requires arena.Valid() && arena.Holds(frames) && k < |frames| && |plain| == |players|
    requires stage.Valid() && Backed(stage.messages, stage.headers, arena.bodies, log) && |log| == |stage.owners|
    modifies arena, if arena.spare.Some? then {arena.spare.value} else {}, stage
    ensures arena.Valid() && arena.Holds(frames) && (arena.spare.None? || arena.spare == old(arena.spare))
    ensures stage.Valid() && Backed(stage.messages, stage.headers, arena.bodies, log') && |log'| == |stage.owners|
    ensures |out| == |players| && (forall x :: x in full ==> x.1 == k)
    ensures forall i :: 0 <= i < |players| ==>
              Staging(out[i], PartsOf(log', stage.owners, i))
              == NowAt(Staging(players[i], PartsOf(log, old(stage.owners), i)), plain[i], i, frames, k, flow, full)
  {
    hide Served, StagedServed, PartsOf, Backed, StagedMessages.Valid;
    out, full, log' := [], {}, log;
    for i := 0 to |players|
      invariant arena.Valid() && arena.Holds(frames) && (arena.spare.None? || arena.spare == old(arena.spare))
      invariant stage.Valid() && Backed(stage.messages, stage.headers, arena.bodies, log') && |log'| == |stage.owners|
      invariant |out| == i && (forall x :: x in full ==> x.0 < i && x.1 == k)
      invariant forall c :: c >= i ==> PartsOf(log', stage.owners, c) == PartsOf(log, old(stage.owners), c)
      invariant forall c :: 0 <= c < i ==>
                  Staging(out[c], PartsOf(log', stage.owners, c))
                  == NowAt(Staging(players[c], PartsOf(log, old(stage.owners), c)), plain[c], c, frames, k, flow, full)
    {
      var p := players[i];
      ghost var before := full;
      if p.live && flow(i, k).Disconnect? {
        p := p.(live := false);
      } else if p.live && flow(i, k).Send? {
        var isFull;
        p, isFull, log' := RelayFrameToPlayer(arena, stage, log', i, p, plain[i], frames, k);
        if isFull {
          full := full + {(i, k)};
        }
      }
      out := out + [p];
    }
  }

  /** What a player is after a batch, as the run of a staging or of a buffering player. */
  function AfterBatch(p: Player, plain: bool, i: nat, frames: seq<Frame>, flow: Flow, full: set<(nat, nat)>): Staging {
    if Stages(p, plain) then StagedRun(Staging(p, []), i, frames, 0, flow, full)
    else Staging(Relayed(p, i, frames, 0, flow), [])
  }

  /** A state in which that is still to come from frame `k` on. */
  ghost predicate OnTheWay(
    s: Staging, p: Player, plain: bool, i: nat, frames: seq<Frame>, k: nat, flow: Flow, full: set<(nat, nat)>)
    requires k <= |frames|
  {
    && Stages(s.p, plain) == Stages(p, plain)
    && (if Stages(p, plain) then s == RunTo(Staging(p, []), i, frames, k, flow, full)
        else s.parts == [] && Relayed(s.p, i, frames, k, flow) == Relayed(p, i, frames, 0, flow))
  }

  lemma GoesOn(
    s: Staging, p: Player, plain: bool, i: nat, frames: seq<Frame>, k: nat, flow: Flow, full: set<(nat, nat)>,
    more: set<(nat, nat)>)
    requires k < |frames| && (forall x :: x in full ==> x.1 < k) && (forall x :: x in more ==> x.1 == k)
    requires OnTheWay(s, p, plain, i, frames, k, flow, full)
    ensures OnTheWay(NowAt(s, plain, i, frames, k, flow, more), p, plain, i, frames, k + 1, flow, full + more)
  {
    hide Served, StagedServed;
    TurnKeepsStaging(s, i, frames, k, flow, more);
    RunToSoFar(Staging(p, []), i, frames, k, flow, full, more);
    assert (i, k) in full + more <==> (i, k) in more;
  }

  lemma BatchDone(s: Staging, p: Player, plain: bool, i: nat, frames: seq<Frame>, flow: Flow, full: set<(nat, nat)>)
    requires OnTheWay(s, p, plain, i, frames, |frames|, flow, full)
    ensures s == AfterBatch(p, plain, i, frames, flow, full)
  {
    hide StagedTurn, Turned;
    RunToIsRun(Staging(p, []), i, frames, |frames|, flow, full);
  }

  /** A batch of frames: every player ends where its run says, whatever is shared, staged or copied. */
  method RelayBatch(players: seq<Player>, plain: seq<bool>, frames: seq<Frame>, flow: Flow)
    returns (out: seq<Player>, arena: BodyArena, stage: StagedMessages, ghost log: Log, ghost full: set<(nat, nat)>)
    requires |plain| == |players|
    ensures fresh(arena) && fresh(stage) && stage.Valid()
    ensures Backed(stage.messages, stage.headers, arena.bodies, log) && |log| == |stage.owners|
    ensures |out| == |players|
    ensures forall i :: 0 <= i < |players| ==>
              Staging(out[i], PartsOf(log, stage.owners, i)) == AfterBatch(players[i], plain[i], i, frames, flow, full)
  {
    hide Backed, PartsOf, StagedMessages.Valid, NowAt, OnTheWay, AfterBatch, BodyArena.Holds;
    arena := new BodyArena();
    stage := new StagedMessages();
    out, log, full := players, [], {};
    StartsBacked(arena, stage, players, plain, frames, flow);
    for k := 0 to |frames|
      invariant arena.Valid() && arena.Holds(frames) && |out| == |players|
      invariant fresh(arena) && fresh(stage) && (arena.spare.Some? ==> fresh(arena.spare.value))
      invariant stage.Valid() && Backed(stage.messages, stage.headers, arena.bodies, log) && |log| == |stage.owners|
      invariant forall x :: x in full ==> x.1 < k
      invariant forall i :: 0 <= i < |players| ==>
                  OnTheWay(Staging(out[i], PartsOf(log, stage.owners, i)), players[i], plain[i], i, frames, k, flow, full)
    {
      ghost var more;
      ghost var was, oldLog, oldOwners := out, log, stage.owners;
      out, more, log := FanOut(arena, stage, log, out, plain, frames, k, flow);
      forall i | 0 <= i < |players|
        ensures OnTheWay(Staging(out[i], PartsOf(log, stage.owners, i)), players[i], plain[i], i, frames, k + 1, flow,
                         full + more)
      {
        GoesOn(Staging(was[i], PartsOf(oldLog, oldOwners, i)), players[i], plain[i], i, frames, k, flow, full, more);
      }
      full := full + more;
      ghost var bodies := arena.bodies;
      arena.ReleaseUnstaged(frames);
      BackedStays(stage.messages, stage.headers, bodies, arena.bodies, log);
    }
    forall i | 0 <= i < |players|
      ensures Staging(out[i], PartsOf(log, stage.owners, i)) == AfterBatch(players[i], plain[i], i, frames, flow, full)
    {
      BatchDone(Staging(out[i], PartsOf(log, stage.owners, i)), players[i], plain[i], i, frames, flow, full);
    }
  }

  lemma StartsBacked(
    arena: BodyArena, stage: StagedMessages, players: seq<Player>, plain: seq<bool>, frames: seq<Frame>, flow: Flow)
    requires arena.bodies == [] && stage.messages == [] && stage.owners == [] && |plain| == |players|
    ensures arena.Holds(frames) && Backed(stage.messages, stage.headers, arena.bodies, [])
    ensures forall i :: 0 <= i < |players| ==>
              OnTheWay(Staging(players[i], PartsOf([], [], i)), players[i], plain[i], i, frames, 0, flow, {})
  {
    hide Relayed;
  }

  /** The parts of a player, found through its list. */
  method PartsFor(arena: BodyArena, stage: StagedMessages, ghost log: Log, c: nat) returns (parts: seq<bytes>)
    requires stage.Valid() && Backed(stage.messages, stage.headers, arena.bodies, log) && |log| == |stage.owners|
    ensures parts == PartsOf(log, stage.owners, c)
  {
    hide Linked, AllOf, Backed;
    var indices := stage.MessagesOf(c);
    AllBelow(stage.owners, c, 0);
    parts := [];
    for j := 0 to |indices|
      invariant parts == PartsAt(log, indices[..j])
    {
      BackedAt(stage.messages, stage.headers, arena.bodies, log, indices[j]);
      var m := stage.messages[indices[j]];
      parts := parts + [stage.headers[m.from..m.to], arena.bodies[m.body].contents];
      assert indices[..j + 1][..j] == indices[..j];
    }
    assert indices[..|indices|] == indices;
  }

  lemma BackedAt(messages: seq<Staged>, headers: bytes, bodies: seq<Body>, log: Log, j: nat)
    requires Backed(messages, headers, bodies, log) && j < |log|
    ensures j < |messages|
    ensures var m := messages[j];
            && m.from <= m.to <= |headers| && headers[m.from..m.to] == log[j].0
            && m.body < |bodies| && bodies[m.body].contents == log[j].1
  {
  }

  /**
   `send`, for one player: what its socket has taken and what its send buffer
   keeps are together its parts; if that fails, nothing is kept. A player that was
   disconnected after staging gets nothing.
   */
  method SendTo(
    arena: BodyArena, stage: StagedMessages, ghost log: Log, c: nat, socket: Socket, connected: bool, buffer: Buffer)
    returns (r: Result<()>)
    requires stage.Valid() && Backed(stage.messages, stage.headers, arena.bodies, log) && |log| == |stage.owners|
    requires buffer.Valid() && socket.taken == [] && buffer.Contents() == []
    modifies socket, buffer
    ensures buffer.Valid()
    ensures !connected ==> r == Ok(()) && socket.taken == buffer.Contents() == []
    ensures socket.taken <= Concat(PartsOf(log, stage.owners, c))
    ensures connected && r.Ok? ==> socket.taken + buffer.Contents() == Concat(PartsOf(log, stage.owners, c))
    ensures r.Err? ==> buffer.Contents() == []
  {
    hide Concat, PartsOf, Linked, Backed, Buffer.Valid, Buffer.Contents;
    var parts := PartsFor(arena, stage, log, c);
    if !connected {
      return Ok(());
    }
    r := SendStagedMedia(socket, true, buffer, parts);
    SplitAt(Concat(parts), socket.taken);
  }

  lemma SplitAt(all: bytes, front: bytes)
    ensures front[0..] == front
    ensures front <= all ==> front + ([] + all[|front|..]) == all
  {
  }
}
