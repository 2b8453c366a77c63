/**
 Relayed media that never enters a player's send buffer (src/server/mod.rs,
 src/session/conn.rs): headers and shared bodies are staged for the whole batch
 in one arena, found again through a linked list per player, and handed to the
 socket in vectored writes, of which any may take only part.
 */
module StagedSends {
  import opened Bytes
  import opened Buffers

  function Concat(parts: seq<bytes>): bytes {
    if parts == [] then [] else parts[0] + Concat(parts[1..])
  }

  lemma {:induction false} ConcatTwo(a: seq<bytes>, b: seq<bytes>)
    ensures Concat(a + b) == Concat(a) + Concat(b)
  {
    if a == [] {
      assert a + b == b;
    } else {
      assert (a + b)[1..] == a[1..] + b;
      ConcatTwo(a[1..], b);
      assert a[0] + (Concat(a[1..]) + Concat(b)) == a[0] + Concat(a[1..]) + Concat(b);
    }
  }

  // Partial writes

  /** A socket that answers each write as it likes: with some of the bytes, none, or an error. */
  class Socket {
    var answers: seq<Result<nat>>
    var taken: bytes

    /** Takes bytes off the front of `parts[0][offset..]` and the other parts, at most all of them. */
    method TrySendVectored(parts: seq<bytes>, offset: nat) returns (r: Result<nat>)
      requires parts != [] && offset <= |parts[0]|
      modifies this
      ensures r.Err? ==> taken == old(taken)
      ensures r.Ok? ==> offset + r.value <= |Concat(parts)|
                        && taken == old(taken) + Concat(parts)[offset..offset + r.value]
    {
      if answers == [] {
        assert taken + [] == taken;
        return Ok(0);
      }
      var answer := answers[0];
      answers := answers[1..];
      if answer.Err? {
        return answer;
      }
      var all := Concat(parts);
      var n := Min(answer.value, |all| - offset);
      taken := taken + all[offset..offset + n];
      return Ok(n);
    }
  }

  /** A position in the parts. */
  predicate InParts(parts: seq<bytes>, next: nat, offset: nat) {
    next <= |parts| && (if next < |parts| then offset <= |parts[next]| else offset == 0)
  }

  /** What is left to send from `offset` of part `next` on. */
  function LeftOver(parts: seq<bytes>, next: nat, offset: nat): bytes
    requires InParts(parts, next, offset)
  {
    if next == |parts| then [] else parts[next][offset..] + Concat(parts[next + 1..])
  }

  lemma LeftOverIsRest(parts: seq<bytes>, next: nat, offset: nat, n: nat)
    requires InParts(parts, next, offset) && offset + n <= |Concat(parts[next..])|
    ensures var left := LeftOver(parts, next, offset);
            n <= |left| && left[..n] == Concat(parts[next..])[offset..offset + n]
  {
    if next < |parts| {
      assert parts[next..][1..] == parts[next + 1..];
      assert LeftOver(parts, next, offset) == Concat(parts[next..])[offset..];
    }
  }

  lemma NextStarts(parts: seq<bytes>, next: nat)
    requires next <= |parts|
    ensures LeftOver(parts, next, 0) == Concat(parts[next..])
  {
    if next < |parts| {
      assert parts[next..][1..] == parts[next + 1..];
    }
  }

  /** Within a part. */
  lemma MoveWithin(parts: seq<bytes>, next: nat, offset: nat, n: nat)
    requires next < |parts| && offset + n <= |parts[next]|
    ensures n <= |LeftOver(parts, next, offset)| && LeftOver(parts, next, offset + n) == LeftOver(parts, next, offset)[n..]
  {
    hide Concat;
    var here, rest := parts[next][offset..], Concat(parts[next + 1..]);
    DropDrop(parts[next], offset, n);
    assert (here + rest)[n..] == here[n..] + rest;
  }

  /** Past the end of one. */
  lemma MovePast(parts: seq<bytes>, next: nat, offset: nat, n: nat)
    requires next < |parts| && offset <= |parts[next]|
    requires |parts[next]| - offset <= n <= |LeftOver(parts, next, offset)|
    ensures var more := n - (|parts[next]| - offset);
            && more <= |LeftOver(parts, next + 1, 0)|
            && LeftOver(parts, next + 1, 0)[more..] == LeftOver(parts, next, offset)[n..]
  {
    NextStarts(parts, next + 1);
    var here, rest := parts[next][offset..], Concat(parts[next + 1..]);
    assert (here + rest)[n..] == rest[n - |here|..];
  }

  /** Moving past the `sent` bytes: the position after them, in the part they end in or at the start of the next. */
  method MovePosition(parts: seq<bytes>, next: nat, offset: nat, sent: nat) returns (next': nat, offset': nat)
    requires next < |parts| && offset <= |parts[next]| && sent <= |LeftOver(parts, next, offset)|
    ensures InParts(parts, next', offset')
    ensures LeftOver(parts, next', offset') == LeftOver(parts, next, offset)[sent..]
  {
    hide LeftOver;
    next', offset' := next, offset;
    var left: nat := sent;
    ghost var goal := LeftOver(parts, next, offset)[sent..];
    while left > 0
      invariant InParts(parts, next', offset')
      invariant left <= |LeftOver(parts, next', offset')| && LeftOver(parts, next', offset')[left..] == goal
      decreases |parts| - next', left
    {
      NothingLeft(parts);
      var here := |parts[next']| - offset';
      if left < here {
        MoveWithin(parts, next', offset', left);
        offset', left := offset' + left, 0;
      } else {
        MovePast(parts, next', offset', left);
        next', offset', left := next' + 1, 0, left - here;
      }
    }
  }

  lemma NothingLeft(parts: seq<bytes>)
    ensures LeftOver(parts, |parts|, 0) == []
  {
  }

  /** A prefix and the rest, after `n` more. */
  lemma PrefixGrows(all: bytes, gone: nat, n: nat)
    requires gone + n <= |all|
    ensures all[..gone] + all[gone..][..n] == all[..gone + n] && all[gone..][n..] == all[gone + n..]
  {
  }

  function TotalLength(parts: seq<bytes>): nat {
    if parts == [] then 0 else |parts[0]| + TotalLength(parts[1..])
  }

  lemma {:induction false} LengthOfConcat(parts: seq<bytes>)
    ensures TotalLength(parts) == |Concat(parts)|
  {
    if parts != [] {
      LengthOfConcat(parts[1..]);
    }
  }

  lemma ConcatFirst(front: bytes, parts: seq<bytes>, i: nat)
    requires i < |parts|
    ensures front + Concat(parts[i..]) == (front + parts[i]) + Concat(parts[i + 1..])
    ensures |front + Concat(parts[i..])| >= |front| + |parts[i]|
  {
    assert parts[i..][1..] == parts[i + 1..];
    assert front + (parts[i] + Concat(parts[i + 1..])) == (front + parts[i]) + Concat(parts[i + 1..]);
  }

  lemma ConcatOfNone(front: bytes, parts: seq<bytes>)
    ensures front + Concat(parts[|parts|..]) == front
  {
    assert parts[|parts|..] == [];
  }

  /** Queues what the socket did not take, all of it or none. */
  method QueueRest(out: Buffer, parts: seq<bytes>, next: nat, offset: nat) returns (r: Result<()>)
    requires out.Valid() && next < |parts| && offset <= |parts[next]|
    modifies out
    ensures out.Valid() && out.Limit() == old(out.Limit())
    ensures r == if old(out.HasRoom(|LeftOver(parts, next, offset)|)) then Ok(()) else Err(Internal)
    ensures out.Contents() == if r.Ok? then old(out.Contents()) + LeftOver(parts, next, offset) else old(out.Contents())
  {
    hide Concat, TotalLength;
    LengthOfConcat(parts[next + 1..]);
    ghost var was, all := out.Contents(), LeftOver(parts, next, offset);
    var first := parts[next][offset..];
    assert was + all == (was + first) + Concat(parts[next + 1..]);
    hide LeftOver;
    var reserved := out.Reserve(|first| + TotalLength(parts[next + 1..]));
    if reserved.Err? {
      return reserved;
    }
    assert |was + all| <= out.Limit();
    var w := out.Write(first);
    if w.Err? {
      assert false;
      return Err(Internal);
    }
    for i := next + 1 to |parts|
      invariant out.Valid() && out.Limit() == old(out.Limit())
      invariant out.Contents() + Concat(parts[i..]) == was + all
    {
      ConcatFirst(out.Contents(), parts, i);
      assert out.HasRoom(|parts[i]|);
      var ok := out.Write(parts[i]);
      if ok.Err? {
        assert false;
        return Err(Internal);
      }
    }
    ConcatOfNone(out.Contents(), parts);
    return Ok(());
  }

  /**
   `send_staged_media`: whatever the socket takes, in however many writes, the
   bytes it has been given and the bytes queued behind them are together the
   parts, in order, each once. If the rest does not fit the send buffer, or the
   socket fails, nothing is queued; without a socket everything is.
   */
  method SendStagedMedia(socket: Socket, connected: bool, out: Buffer, parts: seq<bytes>) returns (r: Result<()>)
    requires out.Valid()
    modifies socket, out
    ensures out.Valid() && out.Limit() == old(out.Limit())
    ensures old(socket.taken) <= socket.taken
    ensures socket.taken[|old(socket.taken)|..] <= Concat(parts)
    ensures r.Ok? ==> out.Contents() == old(out.Contents()) + Concat(parts)[|socket.taken| - |old(socket.taken)|..]
    ensures r.Err? ==> out.Contents() == old(out.Contents())
  {
    hide LeftOver, Concat, Buffer.Valid, Buffer.Contents, Buffer.Limit;
    var next: nat, offset: nat := 0, 0;
    ghost var all, before := Concat(parts), socket.taken;
    ghost var gone: nat := 0;
    NextStarts(parts, 0);
    assert parts[0..] == parts && all[0..] == all && before + all[..0] == before;
    while next < |parts|
      invariant InParts(parts, next, offset)
      invariant gone <= |all| && socket.taken == before + all[..gone] && LeftOver(parts, next, offset) == all[gone..]
      invariant out.Valid() && out.Contents() == old(out.Contents()) && out.Limit() == old(out.Limit())
      decreases |all| - gone
    {
      if !connected {
        break;
      }
      var sent := socket.TrySendVectored(parts[next..], offset);
      if sent.Err? {
        return Err(sent.error);
      }
      if sent.value == 0 {
        break;
      }
      LeftOverIsRest(parts, next, offset, sent.value);
      PrefixGrows(all, gone, sent.value);
      assert before + all[..gone] + all[gone..][..sent.value] == before + (all[..gone] + all[gone..][..sent.value]);
      next, offset := MovePosition(parts, next, offset, sent.value);
      gone := gone + sent.value;
    }
    assert socket.taken[|before|..] == all[..gone];
    if next < |parts| {
      r := QueueRest(out, parts, next, offset);
    } else {
      NothingLeft(parts);
      assert out.Contents() + [] == out.Contents();
      return Ok(());
    }
  }

  // A list per player through one arena

  /** A staged message: where its header is, which body it shares, and the next one for the same player. */
  datatype Staged = Staged(from: nat, to: nat, body: nat, next: Option<nat>)

  /** The first message from `from` on that belongs to player `c`. */
  function NextOf(owners: seq<nat>, c: nat, from: nat): (r: Option<nat>)
    requires from <= |owners|
    ensures r.Some? ==> from <= r.value < |owners| && owners[r.value] == c
    decreases |owners| - from
  {
    if from == |owners| then None else if owners[from] == c then Some(from) else NextOf(owners, c, from + 1)
  }

  /** The last one. */
  function LastOf(owners: seq<nat>, c: nat): (r: Option<nat>)
    ensures r.Some? ==> r.value < |owners| && owners[r.value] == c
  {
    if owners == [] then None
    else if owners[|owners| - 1] == c then Some(|owners| - 1)
    else LastOf(owners[..|owners| - 1], c)
  }

  lemma {:induction false} NextAppend(owners: seq<nat>, d: nat, c: nat, from: nat)
    requires from <= |owners|
    ensures var was := NextOf(owners, c, from);
            NextOf(owners + [d], c, from) == if was.Some? then was else if d == c then Some(|owners|) else None
    decreases |owners| - from
  {
    if from < |owners| {
      NextAppend(owners, d, c, from + 1);
    } else {
      assert NextOf(owners + [d], c, |owners| + 1) == None;
    }
  }

  lemma LastAppend(owners: seq<nat>, d: nat, c: nat)
    ensures LastOf(owners + [d], c) == if d == c then Some(|owners|) else LastOf(owners, c)
  {
    assert (owners + [d])[..|owners|] == owners;
  }

  /** After one of a player's messages there is no other exactly if it is the last. */
  lemma {:induction false} NoneAfterLast(owners: seq<nat>, c: nat, from: nat)
    requires from <= |owners|
    ensures NextOf(owners, c, from).None? <==> LastOf(owners, c).None? || LastOf(owners, c).value < from
    decreases |owners|
  {
    if owners != [] {
      var front, d := owners[..|owners| - 1], owners[|owners| - 1];
      assert owners == front + [d];
      LastAppend(front, d, c);
      if from < |owners| {
        NextAppend(front, d, c, from);
        NoneAfterLast(front, c, from);
      }
    }
  }

  /** All of them, in order. */
  function AllOf(owners: seq<nat>, c: nat, from: nat): seq<nat>
    requires from <= |owners|
    decreases |owners| - from
  {
    if from == |owners| then []
    else (if owners[from] == c then [from] else []) + AllOf(owners, c, from + 1)
  }

  lemma {:induction false} AllFromNext(owners: seq<nat>, c: nat, from: nat)
    requires from <= |owners|
    ensures var i := NextOf(owners, c, from);
            AllOf(owners, c, from) == if i.None? then [] else [i.value] + AllOf(owners, c, i.value + 1)
    decreases |owners| - from
  {
    if from < |owners| && owners[from] != c {
      AllFromNext(owners, c, from + 1);
      assert [] + AllOf(owners, c, from + 1) == AllOf(owners, c, from + 1);
    }
  }

  lemma {:induction false} AllAppend(owners: seq<nat>, d: nat, c: nat, from: nat)
    requires from <= |owners|
    ensures AllOf(owners + [d], c, from) == AllOf(owners, c, from) + if d == c then [|owners|] else []
    decreases |owners| - from
  {
    if from == |owners| {
      Regroup([], [], if d == c then [|owners|] else []);
      AllOfNone(owners + [d], c);
    } else {
      AllAppend(owners, d, c, from + 1);
      Regroup(if owners[from] == c then [from] else [], AllOf(owners, c, from + 1), if d == c then [|owners|] else []);
    }
  }

  lemma AllOfNone(owners: seq<nat>, c: nat)
    ensures AllOf(owners, c, |owners|) == []
    ensures owners != [] ==> AllOf(owners, c, |owners| - 1) == if owners[|owners| - 1] == c then [|owners| - 1] else []
  {
  }

  /** The first and the last message of a player, if it has any. */
  function Ends(owners: seq<nat>, c: nat): Option<(nat, nat)> {
    if LastOf(owners, c).None? || NextOf(owners, c, 0).None? then None
    else Some((NextOf(owners, c, 0).value, LastOf(owners, c).value))
  }

  /** Each list starts at its player's first message, goes from one to the next, and ends at the last. */
  ghost predicate Linked(messages: seq<Staged>, lists: seq<Option<(nat, nat)>>, owners: seq<nat>) {
    && |messages| == |owners|
    && (forall i :: 0 <= i < |messages| ==> owners[i] < |lists| && messages[i].next == NextOf(owners, owners[i], i + 1))
    && (forall c :: 0 <= c < |lists| ==> lists[c] == Ends(owners, c))
  }

  /** The message of another player, or one that is not the last, keeps its successor. */
  lemma LinkKept(owners: seq<nat>, c: nat, i: nat)
    requires i < |owners|
    ensures var was := NextOf(owners, owners[i], i + 1);
            NextOf(owners + [c], owners[i], i + 1) == if LastOf(owners, c) == Some(i) then Some(|owners|) else was
  {
    NextAppend(owners, c, owners[i], i + 1);
    NoneAfterLast(owners, owners[i], i + 1);
    LastNotBefore(owners, owners[i], i);
  }

  lemma {:induction false} LastNotBefore(owners: seq<nat>, c: nat, i: nat)
    requires i < |owners| && owners[i] == c
    ensures LastOf(owners, c).Some? && i <= LastOf(owners, c).value
    decreases |owners|
  {
    if owners[|owners| - 1] != c {
      LastNotBefore(owners[..|owners| - 1], c, i);
    }
  }

  lemma EndsAppend(owners: seq<nat>, d: nat, c: nat)
    ensures Ends(owners + [d], c)
         == if d != c then Ends(owners, c)
            else if Ends(owners, c).Some? then Some((Ends(owners, c).value.0, |owners|))
            else Some((|owners|, |owners|))
  {
    LastAppend(owners, d, c);
    NextAppend(owners, d, c, 0);
    NoneAfterLast(owners, c, 0);
  }

  function Widened(lists: seq<Option<(nat, nat)>>, c: nat): (r: seq<Option<(nat, nat)>>)
    ensures c < |r| && |lists| <= |r|
  {
    if |lists| <= c then lists + seq(c + 1 - |lists|, _ => None) else lists
  }

  lemma WidenedLinked(messages: seq<Staged>, lists: seq<Option<(nat, nat)>>, owners: seq<nat>, c: nat)
    requires Linked(messages, lists, owners)
    ensures Linked(messages, Widened(lists, c), owners)
  {
    hide NextOf, LastOf;
    var wide := Widened(lists, c);
    forall d | 0 <= d < |wide|
      ensures wide[d] == Ends(owners, d)
    {
      assert LastOf(owners, d).Some? ==> owners[LastOf(owners, d).value] < |lists|;
    }
  }

  /** Linking one more message. */
  lemma PushLinked(messages: seq<Staged>, lists: seq<Option<(nat, nat)>>, owners: seq<nat>, c: nat, m: Staged)
    requires Linked(messages, lists, owners) && c < |lists| && m.next == None
    ensures var index := |messages|;
            match lists[c]
            case None => Linked(messages + [m], lists[c := Some((index, index))], owners + [c])
            case Some((head, tail)) =>
              && tail < |messages|
              && Linked((messages + [m])[tail := messages[tail].(next := Some(index))], lists[c := Some((head, index))],
                        owners + [c])
  {
    hide NextOf, LastOf;
    var index, owners' := |messages|, owners + [c];
    var tail := LastOf(owners, c);
    EndsKnown(owners, c);
    forall i | 0 <= i < |owners|
      ensures NextOf(owners', owners'[i], i + 1) == if tail == Some(i) then Some(index) else messages[i].next
    {
      LinkKept(owners, c, i);
    }
    NoneAtEnd(owners', c);
    forall d | 0 <= d < |lists|
      ensures Ends(owners', d) == if d != c then lists[d]
                                  else Some((if lists[c].Some? then lists[c].value.0 else index, index))
    {
      EndsAppend(owners, c, d);
    }
    hide Ends;
  }

  lemma EndsKnown(owners: seq<nat>, c: nat)
    ensures Ends(owners, c).None? <==> LastOf(owners, c).None?
    ensures Ends(owners, c).Some? ==> Ends(owners, c).value.1 == LastOf(owners, c).value
  {
    NoneAfterLast(owners, c, 0);
  }

  lemma NoneAtEnd(owners: seq<nat>, c: nat)
    ensures NextOf(owners, c, |owners|) == None
  {
  }

  class StagedMessages {
    var headers: bytes
    var messages: seq<Staged>
    var lists: seq<Option<(nat, nat)>>
    ghost var owners: seq<nat>

    ghost predicate Valid()
      reads this
    {
      && Linked(messages, lists, owners)
      && forall i :: 0 <= i < |messages| ==> messages[i].from <= messages[i].to <= |headers|
    }

    constructor ()
      ensures Valid() && headers == [] && messages == [] && owners == []
    {
      headers, messages, lists, owners := [], [], [], [];
    }

    /** `push_message`: the message goes to the end of its player's list, and no other list changes. */
    method PushMessage(c: nat, from: nat, to: nat, body: nat)
      requires Valid() && from <= to <= |headers|
      modifies this
      ensures Valid() && headers == old(headers) && owners == old(owners) + [c]
      ensures |messages| == |old(messages)| + 1
      ensures forall i :: 0 <= i < |messages| ==>
                var m := if i < |old(messages)| then old(messages)[i] else Staged(from, to, body, None);
                messages[i].(next := None) == m.(next := None)
    {
      hide Linked;
      var index := |messages|;
      var m := Staged(from, to, body, None);
      WidenedLinked(messages, lists, owners, c);
      PushLinked(messages, Widened(lists, c), owners, c, m);
      messages := messages + [m];
      if |lists| <= c {
        lists := lists + seq(c + 1 - |lists|, _ => None);
      }
      match lists[c] {
        case Some((head, tail)) =>
          messages := messages[tail := messages[tail].(next := Some(index))];
          lists := lists[c := Some((head, index))];
        case None =>
          lists := lists[c := Some((index, index))];
      }
      owners := owners + [c];
    }

    /** `messages_of`: following the list gives the player's messages, all of them, in the order they were staged. */
    method MessagesOf(c: nat) returns (indices: seq<nat>)
      requires Valid()
      ensures indices == AllOf(owners, c, 0)
    {
      hide NextOf, LastOf, AllOf, Linked;
      FirstMessage(messages, lists, owners, c);
      indices := [];
      var next := if c < |lists| && lists[c].Some? then Some(lists[c].value.0) else None;
      ghost var from: nat := 0;
      assert [] + AllOf(owners, c, 0) == AllOf(owners, c, 0);
      while next.Some?
        invariant from <= |owners| && next == NextOf(owners, c, from)
        invariant indices + AllOf(owners, c, from) == AllOf(owners, c, 0)
        decreases |owners| - from
      {
        OneMore(messages, lists, owners, c, from, indices);
        indices := indices + [next.value];
        from := next.value + 1;
        next := messages[next.value].next;
      }
      AllFromNext(owners, c, from);
      assert indices + [] == indices;
    }
  }

  /** From one message of a player to the next. */
  lemma OneMore(
    messages: seq<Staged>, lists: seq<Option<(nat, nat)>>, owners: seq<nat>, c: nat, from: nat, indices: seq<nat>)
    requires Linked(messages, lists, owners) && from <= |owners| && NextOf(owners, c, from).Some?
    ensures var i := NextOf(owners, c, from).value;
            && i < |messages| && messages[i].next == NextOf(owners, c, i + 1)
            && (indices + [i]) + AllOf(owners, c, i + 1) == indices + AllOf(owners, c, from)
  {
    hide NextOf, AllOf;
    AllFromNext(owners, c, from);
    var i := NextOf(owners, c, from).value;
    Regroup(indices, [i], AllOf(owners, c, i + 1));
  }

  lemma FirstMessage(messages: seq<Staged>, lists: seq<Option<(nat, nat)>>, owners: seq<nat>, c: nat)
    requires Linked(messages, lists, owners)
    ensures NextOf(owners, c, 0) == if c < |lists| && lists[c].Some? then Some(lists[c].value.0) else None
  {
    hide NextOf, LastOf;
    NoneAfterLast(owners, c, 0);
    if NextOf(owners, c, 0).Some? {
      assert owners[NextOf(owners, c, 0).value] < |lists|;
    }
  }
}
