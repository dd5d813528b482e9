/**
 The sending side of a peer connection (src/net.h:386-436, src/net.cpp:569-611), and what the two sides
 together guarantee.
 */
module NetSend {
  import opened BigNum
  import opened Wrappers
  import opened NetMessages
  import opened ScriptCode

  /** A message as it is framed: start and command, size and checksum filled in at the end. */
  function Framed(name: seq<Byte>, payload: seq<Byte>, checksum: seq<Byte>): (m: Msg)
    requires |name| == MESSAGE_SIZE_OFFSET && |checksum| == 4
  {
    Msg(name + LittleEndian(|payload|, 4) + checksum, payload)
  }

  /** The framed message declares the size it has, as far as 32 bits reach. */
  lemma FramedComplete(name: seq<Byte>, payload: seq<Byte>, checksum: seq<Byte>)
    requires |name| == MESSAGE_SIZE_OFFSET && |checksum| == 4
    ensures Complete(Framed(name, payload, checksum)) <==> |payload| < Pow256(4)
  {
    var h := Framed(name, payload, checksum).header;
    assert h[MESSAGE_SIZE_OFFSET..CHECKSUM_OFFSET] == LittleEndian(|payload|, 4);
    FromMagnitudeBound(LittleEndian(|payload|, 4));
    if |payload| < Pow256(4) {
      LittleEndianValue(|payload|, 4);
    }
  }

  lemma {:induction false} JoinFirst(x: seq<Byte>, s: seq<seq<Byte>>)
    ensures Join([x] + s) == x + Join(s)
  {
    if s == [] {
      assert [x] + s == [x] && [x][..0] == [];
    } else {
      var n := |s| - 1;
      assert ([x] + s)[..n + 1] == [x] + s[..n];
      JoinFirst(x, s[..n]);
    }
  }

  /** The bytes still to be sent. */
  function Pending(q: seq<seq<Byte>>, offset: nat): seq<Byte>
    requires offset <= |Join(q)|
  {
    Join(q)[offset..]
  }

  /** The queue between calls: whole messages, the first one partly sent, and their total size. */
  ghost predicate Queued(q: seq<seq<Byte>>, offset: nat, size: nat) {
    && (forall k :: 0 <= k < |q| ==> |q[k]| >= HEADER_SIZE)
    && size == |Join(q)|
    && (if q == [] then offset == 0 else offset < |q[0]| <= |Join(q)|)
  }

  lemma FirstOf(q: seq<seq<Byte>>)
    requires q != []
    ensures Join(q) == q[0] + Join(q[1..])
  {
    assert q == [q[0]] + q[1..];
    JoinFirst(q[0], q[1..]);
  }

  lemma EnqueueKeeps(q: seq<seq<Byte>>, offset: nat, size: nat, x: seq<Byte>, wire: seq<Byte>)
    requires Queued(q, offset, size) && |x| >= HEADER_SIZE
    ensures Queued(q + [x], offset, size + |x|)
    ensures wire + Pending(q + [x], offset) == (wire + Pending(q, offset)) + x
  {
    assert (q + [x])[..|q|] == q;
    assert Join(q + [x]) == Join(q) + x;
    assert Pending(q + [x], offset) == Pending(q, offset) + x;
  }

  lemma FlatAppend(ms: seq<Msg>, m: Msg)
    ensures Flat(ms + [m]) == Flat(ms) + (m.header + m.data)
  {
    assert (ms + [m])[..|ms|] == ms;
  }

  /** Part of the first message goes. */
  lemma SendPart(q: seq<seq<Byte>>, offset: nat, size: nat, bytes: nat, wire: seq<Byte>)
    requires Queued(q, offset, size) && q != [] && offset + bytes < |q[0]|
    ensures Queued(q, offset + bytes, size)
    ensures (wire + q[0][offset..offset + bytes]) + Pending(q, offset + bytes) == wire + Pending(q, offset)
  {
    FirstOf(q);
    assert Pending(q, offset) == q[0][offset..offset + bytes] + Pending(q, offset + bytes);
  }

  /** The rest of the first message goes. */
  lemma SendAll(q: seq<seq<Byte>>, offset: nat, size: nat, wire: seq<Byte>)
    requires Queued(q, offset, size) && q != []
    ensures size >= |q[0]| && Queued(q[1..], 0, size - |q[0]|)
    ensures (wire + q[0][offset..]) + Pending(q[1..], 0) == wire + Pending(q, offset)
  {
    FirstOf(q);
    if q[1..] != [] {
      FirstOf(q[1..]);
    }
    assert Pending(q, offset) == q[0][offset..] + Pending(q[1..], 0);
  }

  class Sender {
    var building: seq<Byte>
    var sendMsg: seq<seq<Byte>>
    var sendOffset: nat
    var sendSize: nat
    /** Every message that was ended, and every byte that the socket took. */
    ghost var ended: seq<Msg>
    ghost var wire: seq<Byte>

    ghost predicate Valid()
      reads this
    {
      Queued(sendMsg, sendOffset, sendSize) && wire + Pending(sendMsg, sendOffset) == Flat(ended)
    }

    constructor ()
      ensures Valid() && ended == [] && wire == [] && building == []
    {
      building, sendMsg, sendOffset, sendSize, ended, wire := [], [], 0, 0, [], [];
    }

    method BeginMessage(name: seq<Byte>)
      requires Valid() && building == [] && |name| == MESSAGE_SIZE_OFFSET
      modifies this`building
      ensures Valid() && building == name + seq(8, _ => 0)
    {
      building := name + seq(8, _ => 0);
    }

    method AbortMessage()
      requires Valid()
      modifies this`building
      ensures Valid() && building == []
    {
      building := [];
    }

    /** Fill in size and checksum, queue the message, and try to send at once if nothing was waiting. */
    method EndMessage(checksum: seq<Byte>, accept: nat -> int)
      requires Valid() && |checksum| == 4 && (building == [] || |building| >= HEADER_SIZE)
      modifies this
      ensures Valid() && building == [] && old(wire) <= wire
      ensures old(building) == [] ==> ended == old(ended)
      ensures old(building) != [] ==>
        ended == old(ended) + [Framed(old(building)[..MESSAGE_SIZE_OFFSET], old(building)[HEADER_SIZE..], checksum)]
    {
      if building == [] {
        return;
      }
      var size := |building| - HEADER_SIZE;
      building := building[..MESSAGE_SIZE_OFFSET] + LittleEndian(size, 4) + building[CHECKSUM_OFFSET..];
      building := building[..CHECKSUM_OFFSET] + checksum + building[HEADER_SIZE..];
      ghost var m := Framed(old(building)[..MESSAGE_SIZE_OFFSET], old(building)[HEADER_SIZE..], checksum);
      assert building == m.header + m.data;
      var idle := sendMsg == [];
      Enqueue(m);
      if idle {
        SocketSendData(accept);
      }
    }

    /** A whole message, its payload serialized between the two calls (src/net.h:440-461): it is framed, joins
        the messages ended, and leaves nothing behind for the next one. */
    method PushMessage(name: seq<Byte>, payload: seq<Byte>, checksum: seq<Byte>, accept: nat -> int)
      requires Valid() && building == [] && |name| == MESSAGE_SIZE_OFFSET && |checksum| == 4
      modifies this
      ensures Valid() && building == [] && old(wire) <= wire
      ensures ended == old(ended) + [Framed(name, payload, checksum)]
      ensures Complete(ended[|old(ended)|]) <==> |payload| < Pow256(4)
    {
      BeginMessage(name);
      building := building + payload;
      assert building[..MESSAGE_SIZE_OFFSET] == name && building[HEADER_SIZE..] == payload;
      EndMessage(checksum, accept);
      FramedComplete(name, payload, checksum);
    }

    method Enqueue(ghost m: Msg)
      requires Valid() && building == m.header + m.data && |building| >= HEADER_SIZE
      modifies this
      ensures Valid() && building == [] && ended == old(ended) + [m] && wire == old(wire)
      ensures sendMsg == old(sendMsg) + [old(building)]
    {
      EnqueueKeeps(sendMsg, sendOffset, sendSize, building, wire);
      FlatAppend(ended, m);
      sendMsg := sendMsg + [building];
      sendSize := sendSize + |building|;
      ended := ended + [m];
      building := [];
    }

    /** Send as much as the socket takes: accept(k) is what the k-th call to send returns, at most what
        was offered. The source's assertions about the offset are part of `Valid`. */
    method SocketSendData(accept: nat -> int)
      requires Valid()
      modifies this`sendMsg, this`sendOffset, this`sendSize, this`wire
      ensures Valid() && old(wire) <= wire
      ensures sendMsg == [] ==> wire == Flat(ended)
      ensures (forall k {:trigger accept(k)} :: accept(k) >= old(sendSize)) ==> sendMsg == []
      ensures old(sendMsg) != [] ==>
        |wire| >= |old(wire)| + Min(accept(0), |old(sendMsg)[0]| - old(sendOffset)) && (accept(0) <= 0 ==> wire == old(wire))
    {
      var calls := 0;
      var more := true;
      while sendMsg != [] && more
        invariant Valid() && old(wire) <= wire && sendSize <= old(sendSize)
        invariant calls == 0 ==> more && sendMsg == old(sendMsg) && sendOffset == old(sendOffset) && wire == old(wire)
        invariant calls > 0 && old(sendMsg) != [] ==> |wire| >= |old(wire)| + Min(accept(0), |old(sendMsg)[0]| - old(sendOffset))
        invariant accept(0) <= 0 ==> wire == old(wire) && (calls == 0 || !more)
        invariant !more ==> exists k {:trigger accept(k)} :: k >= 0 && accept(k) < old(sendSize)
        decreases |sendMsg|, more
      {
        more := SendFirst(accept(calls));
        calls := calls + 1;
      }
    }

    /** One call to send, for the first message of the queue; more if all of it went. */
    method SendFirst(accepted: int) returns (more: bool)
      requires Valid() && sendMsg != []
      modifies this`sendMsg, this`sendOffset, this`sendSize, this`wire
      ensures Valid() && old(wire) <= wire && sendSize <= old(sendSize)
      ensures |wire| == |old(wire)| + if accepted <= 0 then 0 else Min(accepted, |old(sendMsg)[0]| - old(sendOffset))
      ensures more == (accepted >= |old(sendMsg)[0]| - old(sendOffset))
      ensures sendMsg == if more then old(sendMsg)[1..] else old(sendMsg)
      ensures !more ==> accepted < sendSize
    {
      var data := sendMsg[0];
      var bytes := Min(accepted, |data| - sendOffset);
      if bytes <= 0 {
        return false;
      }
      more := sendOffset + bytes == |data|;
      if more {
        FinishFirst();
      } else {
        Advance(bytes);
      }
    }

    method FinishFirst()
      requires Valid() && sendMsg != []
      modifies this`sendMsg, this`sendOffset, this`sendSize, this`wire
      ensures Valid() && sendMsg == old(sendMsg)[1..] && sendSize <= old(sendSize)
      ensures wire == old(wire) + old(sendMsg)[0][old(sendOffset)..]
    {
      SendAll(sendMsg, sendOffset, sendSize, wire);
      wire := wire + sendMsg[0][sendOffset..];
      sendOffset := 0;
      sendSize := sendSize - |sendMsg[0]|;
      sendMsg := sendMsg[1..];
    }

    method Advance(bytes: nat)
      requires Valid() && sendMsg != [] && sendOffset + bytes < |sendMsg[0]|
      modifies this`sendOffset, this`wire
      ensures Valid() && wire == old(wire) + sendMsg[0][old(sendOffset)..old(sendOffset) + bytes]
    {
      SendPart(sendMsg, sendOffset, sendSize, bytes, wire);
      wire := wire + sendMsg[0][sendOffset..sendOffset + bytes];
      sendOffset := sendOffset + bytes;
    }
  }

  // ----- the two sides together -----

  ghost predicate AllComplete(ms: seq<Msg>) {
    forall k {:trigger ms[k]} :: 0 <= k < |ms| ==> Complete(ms[k])
  }

  ghost predicate WithinLimit(ms: seq<Msg>) {
    forall k {:trigger ms[k]} :: 0 <= k < |ms| ==> !TooLarge(ms[k])
  }

  /** The messages of an inbox without the one still open. */
  function Finished(i: Inbox): seq<Msg> {
    if i.msgs != [] && !Complete(i.msgs[|i.msgs| - 1]) then i.msgs[..|i.msgs| - 1] else i.msgs
  }

  lemma CompleteWellFormed(ms: seq<Msg>)
    requires AllComplete(ms) && WithinLimit(ms)
    ensures WellFormed(Inbox(ms, false))
  {
    assert ms != [] ==> Complete(ms[|ms| - 1]) && !TooLarge(ms[|ms| - 1]);
  }

  lemma WellFormedWithin(ms: seq<Msg>)
    requires WellFormed(Inbox(ms, false))
    ensures WithinLimit(ms)
  {
    forall k | 0 <= k < |ms| ensures !TooLarge(ms[k]) {
      var i := Inbox(ms, false);
      assert i.msgs[k] == ms[k];
    }
  }

  /** Framed messages arrive as they were sent exactly when none is over the size limit. */
  lemma ArrivesIff(ms: seq<Msg>)
    requires AllComplete(ms)
    ensures Feed(Nothing, Flat(ms)) == Inbox(ms, false) <==> WithinLimit(ms)
  {
    var i := Inbox(ms, false);
    if WithinLimit(ms) {
      CompleteWellFormed(ms);
      Canonical(i);
    }
    if Feed(Nothing, Flat(ms)) == i {
      FeedWellFormed(Nothing, Flat(ms));
      WellFormedWithin(ms);
    }
  }

  /** Receiving never changes a finished message. */
  lemma {:induction false} FinishedGrows(i: Inbox, s: seq<Byte>)
    ensures Finished(i) <= Finished(Feed(i, s))
    decreases |s|
  {
    if s != [] {
      var j := Step(i, s[0]);
      assert Finished(i) <= Finished(j);
      FinishedGrows(j, s[1..]);
    }
  }

  /** What a receiver has at any moment of a connection whose messages are all within the limit: nothing
      refused, the finished messages a prefix of those ended, and all of them once nothing is pending. */
  lemma Delivered(ended: seq<Msg>, wire: seq<Byte>, pending: seq<Byte>)
    requires AllComplete(ended) && WithinLimit(ended) && wire + pending == Flat(ended)
    ensures !Feed(Nothing, wire).refused
    ensures Finished(Feed(Nothing, wire)) <= ended
    ensures pending == [] ==> Feed(Nothing, wire).msgs == ended
  {
    ArrivesIff(ended);
    FeedSplit(Nothing, wire, pending);
    var i := Feed(Nothing, wire);
    FinishedGrows(i, pending);
    if i.refused {
      StaysRefused(i, pending);
    }
    assert ended != [] ==> Complete(ended[|ended| - 1]);
    assert pending == [] ==> wire == Flat(ended);
  }

  /** End to end: whatever the sender did and however its bytes were cut into chunks on the way. */
  lemma EndToEnd(s: Sender, n: Node, chunks: seq<seq<Byte>>)
    requires s.Valid() && n.Valid() && AllComplete(s.ended) && WithinLimit(s.ended)
    requires Join(chunks) == s.wire && n.View() == FeedAll(Nothing, chunks)
    ensures !n.Refused() && Finished(n.View()) <= s.ended
    ensures s.sendMsg == [] ==> n.View().msgs == s.ended
  {
    AnySplit(Nothing, chunks);
    Delivered(s.ended, s.wire, Pending(s.sendMsg, s.sendOffset));
  }
}
