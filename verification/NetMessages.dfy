/**
 Message framing on a peer connection: `ReceiveMsgBytes` reassembles messages from chunks of bytes
 (src/net.cpp:497-567, src/net.h:139-165).

 The reference is one byte at a time: `Step`, folded by `Feed`.
 */
module NetMessages {
  import opened BigNum
  import opened Wrappers

  const HEADER_SIZE := 24
  const MESSAGE_SIZE_OFFSET := 16
  const CHECKSUM_OFFSET := 20
  const MAX_SIZE := 0x02000000
  /** How far ahead of the received bytes the data buffer is allocated. */
  const AHEAD := 256 * 1024

  /** The received part of a message. */
  datatype Msg = Msg(header: seq<Byte>, data: seq<Byte>)
  /** Everything received; after a refusal the last message is the header that was refused. */
  datatype Inbox = Inbox(msgs: seq<Msg>, refused: bool)

  const Nothing := Inbox([], false)

  function SizeOf(header: seq<Byte>): nat
    requires |header| == HEADER_SIZE
  {
    FromMagnitude(header[MESSAGE_SIZE_OFFSET..CHECKSUM_OFFSET])
  }

  predicate Complete(m: Msg) {
    |m.header| == HEADER_SIZE && SizeOf(m.header) == |m.data|
  }

  function AddByte(m: Msg, b: Byte): Msg {
    if |m.header| < HEADER_SIZE then m.(header := m.header + [b]) else m.(data := m.data + [b])
  }

  predicate TooLarge(m: Msg) {
    |m.header| == HEADER_SIZE && SizeOf(m.header) > MAX_SIZE
  }

  function Step(i: Inbox, b: Byte): Inbox {
    if i.refused then i
    else
      var open := i.msgs != [] && !Complete(i.msgs[|i.msgs| - 1]);
      var m := AddByte(if open then i.msgs[|i.msgs| - 1] else Msg([], []), b);
      Inbox((if open then i.msgs[..|i.msgs| - 1] else i.msgs) + [m], TooLarge(m))
  }

  function Feed(i: Inbox, s: seq<Byte>): Inbox
    decreases |s|
  {
    if s == [] then i else Feed(Step(i, s[0]), s[1..])
  }

  /** However the stream is split, the outcome is that of feeding it whole. */
  lemma {:induction false} FeedSplit(i: Inbox, a: seq<Byte>, b: seq<Byte>)
    ensures Feed(i, a + b) == Feed(Feed(i, a), b)
    decreases |a|
  {
    if a == [] {
      assert a + b == b;
    } else {
      FeedSplit(Step(i, a[0]), a[1..], b);
      assert (a + b)[1..] == a[1..] + b;
    }
  }

  function Join(chunks: seq<seq<Byte>>): seq<Byte> {
    if chunks == [] then [] else Join(chunks[..|chunks| - 1]) + chunks[|chunks| - 1]
  }

  function FeedAll(i: Inbox, chunks: seq<seq<Byte>>): Inbox {
    if chunks == [] then i else Feed(FeedAll(i, chunks[..|chunks| - 1]), chunks[|chunks| - 1])
  }

  lemma {:induction false} AnySplit(i: Inbox, chunks: seq<seq<Byte>>)
    ensures FeedAll(i, chunks) == Feed(i, Join(chunks))
  {
    if chunks != [] {
      AnySplit(i, chunks[..|chunks| - 1]);
      FeedSplit(i, Join(chunks[..|chunks| - 1]), chunks[|chunks| - 1]);
    }
  }

  // ----- what the result is, said without steps -----

  function Flat(ms: seq<Msg>): seq<Byte> {
    if ms == [] then [] else Flat(ms[..|ms| - 1]) + (ms[|ms| - 1].header + ms[|ms| - 1].data)
  }

  /** A message in progress or complete: data only after a whole header, and never more than declared. */
  predicate Started(m: Msg) {
    && 0 < |m.header| <= HEADER_SIZE
    && (|m.header| < HEADER_SIZE ==> m.data == [])
    && (|m.header| == HEADER_SIZE ==> |m.data| <= SizeOf(m.header))
  }

  /** All messages but the last are complete, no size is over the limit, and a refused inbox ends with
      the bare header that declares too much. */
  ghost predicate WellFormed(i: Inbox) {
    && (forall k {:trigger i.msgs[k]} :: 0 <= k < |i.msgs| - 1 ==> Complete(i.msgs[k]) && !TooLarge(i.msgs[k]))
    && (i.msgs != [] ==> Started(i.msgs[|i.msgs| - 1]) && (i.refused <==> TooLarge(i.msgs[|i.msgs| - 1])))
    && (i.refused ==> i.msgs != [] && i.msgs[|i.msgs| - 1].data == [])
  }

  lemma StepWellFormed(i: Inbox, b: Byte)
    requires WellFormed(i)
    ensures WellFormed(Step(i, b))
    ensures !i.refused ==> Flat(Step(i, b).msgs) == Flat(i.msgs) + [b]
  {
    if !i.refused {
      var n := |i.msgs|;
      var j := Step(i, b);
      var m := j.msgs[|j.msgs| - 1];
      if n > 0 && !Complete(i.msgs[n - 1]) {
        var last := i.msgs[n - 1];
        assert j.msgs[..n - 1] == i.msgs[..n - 1];
        assert m.header + m.data == (last.header + last.data) + [b];
      } else {
        assert j.msgs[..n] == i.msgs;
        assert m.header + m.data == [b];
      }
    }
  }

  /** The result is well formed and holds exactly the bytes fed, or after a refusal the bytes up to it. */
  lemma {:induction false} FeedWellFormed(i: Inbox, s: seq<Byte>)
    requires WellFormed(i)
    ensures WellFormed(Feed(i, s))
    ensures !Feed(i, s).refused ==> Flat(Feed(i, s).msgs) == Flat(i.msgs) + s
    ensures Feed(i, s).refused && !i.refused ==> Flat(i.msgs) <= Flat(Feed(i, s).msgs) <= Flat(i.msgs) + s
    decreases |s|
  {
    if s != [] {
      var b, rest := s[0], s[1..];
      StepWellFormed(i, b);
      var j := Step(i, b);
      FeedWellFormed(j, rest);
      if j.refused {
        StaysRefused(j, rest);
      }
      FlatFed(Flat(i.msgs), b, rest, s, Flat(j.msgs), Flat(Feed(j, rest).msgs));
    }
  }

  lemma FlatFed(before: seq<Byte>, b: Byte, rest: seq<Byte>, s: seq<Byte>, mid: seq<Byte>, after: seq<Byte>)
    requires s == [b] + rest
    ensures mid == before + [b] && after == mid + rest ==> after == before + s
    ensures mid == before + [b] && mid <= after <= mid + rest ==> before <= after <= before + s
    ensures mid == before + [b] ==> before <= mid <= before + s
  {
    assert (before + [b]) + rest == before + s;
  }

  lemma {:induction false} StaysRefused(i: Inbox, s: seq<Byte>)
    requires i.refused
    ensures Feed(i, s) == i
    decreases |s|
  {
    if s != [] {
      StaysRefused(Step(i, s[0]), s[1..]);
    }
  }

  /** The part of a message still to come, fed to an inbox that ends with the message as far as it got. */
  lemma {:induction false} FeedRest(done: seq<Msg>, m: Msg, s: seq<Byte>)
    requires |m.header| == HEADER_SIZE && |m.data| + |s| <= SizeOf(m.header) <= MAX_SIZE
    ensures Feed(Inbox(done + [m], false), s) == Inbox(done + [m.(data := m.data + s)], false)
    decreases |s|
  {
    if s == [] {
      assert m.data + s == m.data;
    } else {
      var m' := AddByte(m, s[0]);
      var i := Inbox(done + [m], false);
      assert i.msgs[..|i.msgs| - 1] == done;
      assert Step(i, s[0]) == Inbox(done + [m'], false);
      FeedRest(done, m', s[1..]);
      assert m'.data + s[1..] == m.data + s;
    }
  }

  lemma {:induction false} FeedHeader(done: seq<Msg>, h: seq<Byte>, s: seq<Byte>)
    requires h != [] && |h| + |s| <= HEADER_SIZE && (|h| == HEADER_SIZE ==> SizeOf(h) <= MAX_SIZE)
    ensures Feed(Inbox(done + [Msg(h, [])], false), s)
         == Inbox(done + [Msg(h + s, [])], TooLarge(Msg(h + s, [])))
    decreases |s|
  {
    if s == [] {
      assert h + s == h;
    } else {
      var h' := h + [s[0]];
      var i := Inbox(done + [Msg(h, [])], false);
      assert i.msgs[..|i.msgs| - 1] == done;
      assert Step(i, s[0]) == Inbox(done + [Msg(h', [])], TooLarge(Msg(h', [])));
      if |h'| == HEADER_SIZE {
        assert s[1..] == [] && h + s == h';
      } else {
        FeedHeader(done, h', s[1..]);
        assert h' + s[1..] == h + s;
      }
    }
  }

  /** Well-formed inboxes are the fixed points: each is what its own bytes produce. */
  lemma {:induction false} Canonical(i: Inbox)
    requires WellFormed(i)
    ensures Feed(Nothing, Flat(i.msgs)) == i
    decreases |i.msgs|
  {
    if i.msgs != [] {
      var n := |i.msgs| - 1;
      var done, m := i.msgs[..n], i.msgs[n];
      assert i.msgs == done + [m];
      assert n > 0 ==> Complete(i.msgs[n - 1]) && !TooLarge(i.msgs[n - 1]);
      Canonical(Inbox(done, false));
      FeedSplit(Nothing, Flat(done), m.header + m.data);
      FeedMessage(done, m);
    }
  }

  lemma FeedMessage(done: seq<Msg>, m: Msg)
    requires done != [] ==> Complete(done[|done| - 1])
    requires Started(m) && (TooLarge(m) ==> m.data == [])
    ensures Feed(Inbox(done, false), m.header + m.data) == Inbox(done + [m], TooLarge(m))
  {
    var i := Inbox(done, false);
    FeedSplit(i, m.header, m.data);
    var first := [m.header[0]];
    assert m.header == first + m.header[1..];
    FeedHeader(done, first, m.header[1..]);
    assert AddByte(Msg([], []), m.header[0]) == Msg(first, []);
    assert Step(i, m.header[0]) == Inbox(done + [Msg(first, [])], false);
    assert Feed(i, m.header) == Inbox(done + [Msg(m.header, [])], TooLarge(Msg(m.header, [])));
    if m.data != [] {
      FeedRest(done, Msg(m.header, []), m.data);
      assert [] + m.data == m.data;
    }
  }

  /** The bytes determine the messages: what an unrefused stream leaves is the only well-formed reading
      of it, and a stream is refused exactly when a prefix of it is the bytes of a refused inbox. */
  lemma OnlyReading(s: seq<Byte>, i: Inbox)
    requires WellFormed(i)
    ensures !i.refused && Flat(i.msgs) == s <==> Feed(Nothing, s) == i && !i.refused
    ensures i.refused && Flat(i.msgs) <= s <==> Feed(Nothing, s) == i && i.refused
  {
    var t := Flat(i.msgs);
    Canonical(i);
    FedFlat(s, Feed(Nothing, s));
    if i.refused && t <= s {
      FeedParts(Nothing, s, t, s[|t|..], i);
    }
  }

  lemma FedFlat(s: seq<Byte>, r: Inbox)
    requires r == Feed(Nothing, s)
    ensures if r.refused then Flat(r.msgs) <= s else Flat(r.msgs) == s
  {
    FeedWellFormed(Nothing, s);
    AfterNothing(s, Flat(Nothing.msgs));
  }

  lemma AfterNothing(s: seq<Byte>, none: seq<Byte>)
    requires none == Flat(Nothing.msgs)
    ensures none + s == s && none <= s && !Nothing.refused
  {
  }

  // ----- the receiving buffers -----

  class NetMessage {
    var inData: bool
    var hdrbuf: seq<Byte>
    var hdrPos: nat
    var hdr: seq<Byte>
    var recv: seq<Byte>
    var dataPos: nat

    ghost predicate Valid()
      reads this
    {
      && |hdrbuf| == HEADER_SIZE
      && hdrPos <= HEADER_SIZE
      && (!inData ==> dataPos == 0 && recv == [] && (hdrPos == HEADER_SIZE ==> SizeOf(hdrbuf) > MAX_SIZE))
      && (inData ==> hdrPos == HEADER_SIZE && |hdr| == HEADER_SIZE && SizeOf(hdr) <= MAX_SIZE
                     && dataPos <= |recv| <= SizeOf(hdr))
    }

    /** What has been received; how far ahead the buffer is allocated does not show. */
    ghost function View(): Msg
      requires Valid()
      reads this
    {
      Msg(if inData then hdr else hdrbuf[..hdrPos], recv[..dataPos])
    }

    constructor ()
      ensures Valid() && View() == Msg([], []) && !inData && hdrPos == 0
    {
      inData, hdrPos, dataPos := false, 0, 0;
      hdrbuf := seq(HEADER_SIZE, _ => 0);
      hdr, recv := [], [];
    }

    /** `complete`: the buffer then has exactly the declared size. */
    predicate IsComplete()
      requires Valid()
      reads this
      ensures IsComplete() <==> Complete(View())
      ensures IsComplete() ==> |hdr| == HEADER_SIZE && |recv| == SizeOf(hdr) && View().data == recv
    {
      assert hdrbuf[..HEADER_SIZE] == hdrbuf;
      inData && SizeOf(hdr) == dataPos
    }

    /** `readHeader`: the number of bytes used, or -1. */
    method ReadHeader(chunk: seq<Byte>) returns (handled: int)
      requires Valid() && !inData && chunk != []
      modifies this
      ensures Valid()
      ensures View() == Msg(old(View()).header + chunk[..Min(HEADER_SIZE - old(hdrPos), |chunk|)], [])
      ensures handled == if TooLarge(View()) then -1 else Min(HEADER_SIZE - old(hdrPos), |chunk|)
      ensures inData == (|View().header| == HEADER_SIZE && handled >= 0)
    {
      var copy: nat := Min(HEADER_SIZE - hdrPos, |chunk|);
      ghost var before := hdrbuf[..hdrPos];
      hdrbuf := hdrbuf[..hdrPos] + chunk[..copy] + hdrbuf[hdrPos + copy..];
      hdrPos := hdrPos + copy;
      assert hdrbuf[..hdrPos] == before + chunk[..copy];
      if hdrPos < HEADER_SIZE {
        return copy;
      }
      assert hdrbuf[..hdrPos] == hdrbuf;
      if SizeOf(hdrbuf) > MAX_SIZE {
        return -1;
      }
      hdr := hdrbuf;
      inData := true;
      return copy;
    }

    /** `readData`. */
    method ReadData(chunk: seq<Byte>) returns (handled: nat)
      requires Valid() && inData && !IsComplete() && chunk != []
      modifies this
      ensures Valid() && inData
      ensures 0 < handled == Min(SizeOf(old(hdr)) - old(dataPos), |chunk|)
      ensures View() == Msg(old(View()).header, old(View()).data + chunk[..handled])
    {
      var size := SizeOf(hdr);
      handled := Min(size - dataPos, |chunk|);
      ghost var before := recv[..dataPos];
      if |recv| < dataPos + handled {
        var length: nat := Min(size, dataPos + handled + AHEAD);
        recv := recv + seq(length - |recv|, _ => 0);
      }
      assert recv[..dataPos] == before;
      recv := recv[..dataPos] + chunk[..handled] + recv[dataPos + handled..];
      dataPos := dataPos + handled;
      assert recv[..dataPos] == before + chunk[..handled];
    }

    /** Take from the chunk what the message is waiting for. */
    method Read(chunk: seq<Byte>) returns (handled: int)
      requires Valid() && !IsComplete() && chunk != []
      modifies this
      ensures Valid() && hdrPos > 0
      ensures View() == Grow(old(View()), chunk[..Share(old(View()), |chunk|)])
      ensures handled == if TooLarge(View()) then -1 else Share(old(View()), |chunk|)
      ensures (!inData && hdrPos == HEADER_SIZE) == TooLarge(View())
    {
      assert hdrbuf[..HEADER_SIZE] == hdrbuf;
      if !inData {
        handled := ReadHeader(chunk);
      } else {
        handled := ReadData(chunk);
      }
    }
  }

  /** The number of bytes an open message takes from a chunk of n, and the message they make of it. */
  function Share(m: Msg, n: nat): (k: nat)
    requires Started(m) || m == Msg([], [])
    ensures k <= n
  {
    if |m.header| < HEADER_SIZE then Min(HEADER_SIZE - |m.header|, n)
    else if TooLarge(m) then 0
    else Min(SizeOf(m.header) - |m.data|, n)
  }

  function Grow(m: Msg, s: seq<Byte>): Msg {
    if |m.header| < HEADER_SIZE then Msg(m.header + s, m.data) else Msg(m.header, m.data + s)
  }

  /** The inbox has the messages `done` behind it and m open, or about to be. */
  ghost predicate AtTurn(i: Inbox, done: seq<Msg>, m: Msg) {
    && (done != [] ==> Complete(done[|done| - 1]))
    && (Started(m) || m == Msg([], [])) && !Complete(m) && (TooLarge(m) ==> m.data == [])
    && i == Inbox(done + (if m.header == [] then [] else [m]), TooLarge(m))
  }

  function Next(done: seq<Msg>, m: Msg): Inbox {
    Inbox(done + [m], TooLarge(m))
  }

  lemma TurnFeeds(i: Inbox, done: seq<Msg>, m: Msg, t: seq<Byte>)
    requires AtTurn(i, done, m) && !TooLarge(m) && t != [] && |t| <= Share(m, |t|)
    ensures Feed(i, t) == Next(done, Grow(m, t))
  {
    if |m.header| == HEADER_SIZE {
      FeedRest(done, m, t);
    } else if m.header == [] {
      assert [] + t == t && t + [] == t && i.msgs == done;
      FeedMessage(done, Msg(t, []));
    } else {
      FeedHeader(done, m.header, t);
    }
  }

  /** What one turn of the receive loop leaves: all of the chunk accounted for, or some of it used. */
  ghost predicate Took(i: Inbox, s: seq<Byte>, j: Inbox, handled: int) {
    if j.refused then handled == -1 && j == Feed(i, s)
    else 0 < handled <= |s| && Feed(j, s[handled..]) == Feed(i, s)
  }

  /** One turn of the receive loop: the inbox whose open message is m takes m's share of the chunk. */
  lemma Turn(i: Inbox, done: seq<Msg>, m: Msg, s: seq<Byte>, k: nat, t: seq<Byte>, rest: seq<Byte>, j: Inbox)
    requires s != [] && AtTurn(i, done, m) && k == Share(m, |s|) && t == s[..k] && rest == s[k..] && j == Next(done, Grow(m, t))
    ensures Took(i, s, j, if j.refused then -1 else k)
  {
    assert s == t + rest;
    if TooLarge(m) {
      TurnRefused(i, done, m, s, t, j);
    } else {
      TurnFeeds(i, done, m, t);
      FeedParts(i, s, t, rest, j);
    }
  }

  lemma TurnRefused(i: Inbox, done: seq<Msg>, m: Msg, s: seq<Byte>, t: seq<Byte>, j: Inbox)
    requires AtTurn(i, done, m) && TooLarge(m) && t == [] && j == Next(done, Grow(m, t))
    ensures j.refused && j == Feed(i, s)
  {
    assert m.data + t == m.data;
    StaysRefused(i, s);
  }

  /** Fed in two parts, with the second part without effect after a refusal. */
  lemma FeedParts(i: Inbox, s: seq<Byte>, t: seq<Byte>, rest: seq<Byte>, j: Inbox)
    requires s == t + rest && Feed(i, t) == j
    ensures Feed(i, s) == Feed(j, rest) && (j.refused ==> Feed(i, s) == j)
  {
    FeedSplit(i, t, rest);
    if j.refused {
      StaysRefused(j, rest);
    }
  }

  lemma TurnTook(i: Inbox, done: seq<Msg>, m: Msg, s: seq<Byte>, m': Msg, handled: int)
    requires s != [] && AtTurn(i, done, m) && m' == Grow(m, s[..Share(m, |s|)])
    requires handled == if TooLarge(m') then -1 else Share(m, |s|)
    ensures Took(i, s, Next(done, m'), handled)
  {
    var k := Share(m, |s|);
    Turn(i, done, m, s, k, s[..k], s[k..], Next(done, m'));
  }

  class Node {
    var recvMsg: seq<NetMessage>

    /** The only message that receiving changes. */
    ghost function Last(): set<NetMessage>
      reads this
    {
      if recvMsg == [] then {} else {recvMsg[|recvMsg| - 1]}
    }

    ghost predicate Refused()
      reads this, recvMsg
    {
      recvMsg != [] && var m := recvMsg[|recvMsg| - 1]; !m.inData && m.hdrPos == HEADER_SIZE
    }

    /** The queue, with `Open` allowing a last message that has received nothing yet. */
    ghost predicate Open()
      reads this, recvMsg
    {
      && (forall j, k {:trigger recvMsg[j], recvMsg[k]} :: 0 <= j < k < |recvMsg| ==> recvMsg[j] != recvMsg[k])
      && (forall k {:trigger recvMsg[k]} :: 0 <= k < |recvMsg| ==> recvMsg[k].Valid())
      && (forall k {:trigger recvMsg[k]} :: 0 <= k < |recvMsg| - 1 ==> recvMsg[k].IsComplete())
    }

    ghost predicate Valid()
      reads this, recvMsg
    {
      Open() && (recvMsg != [] ==> recvMsg[|recvMsg| - 1].hdrPos > 0)
    }

    ghost function Views(n: nat): (v: seq<Msg>)
      requires Open() && n <= |recvMsg|
      reads this, recvMsg
      ensures |v| == n
    {
      seq(n, k requires 0 <= k < n && Open() && n <= |recvMsg| reads this, recvMsg => recvMsg[k].View())
    }

    ghost function View(): (i: Inbox)
      requires Open()
      reads this, recvMsg
    {
      Inbox(Views(|recvMsg|), Refused())
    }

    constructor ()
      ensures Valid() && View() == Nothing && recvMsg == []
    {
      recvMsg := [];
    }

    /** The open message, appended if there is none. */
    method Current() returns (m: NetMessage)
      requires Valid()
      modifies this
      ensures Open() && recvMsg != [] && m == recvMsg[|recvMsg| - 1] && !m.IsComplete()
      ensures {m} == old(Last()) || fresh(m)
      ensures AtTurn(old(View()), Views(|recvMsg| - 1), m.View())
    {
      if recvMsg == [] || recvMsg[|recvMsg| - 1].IsComplete() {
        LastComplete();
        m := Append();
      } else {
        m := recvMsg[|recvMsg| - 1];
        LastOpen();
      }
    }

    method Append() returns (m: NetMessage)
      requires Valid() && (recvMsg != [] ==> recvMsg[|recvMsg| - 1].IsComplete())
      modifies this
      ensures fresh(m) && recvMsg == old(recvMsg) + [m] && m.Valid() && m.View() == Msg([], []) && !m.IsComplete()
      ensures Open() && Views(|recvMsg| - 1) == old(Views(|recvMsg|))
    {
      m := new NetMessage();
      recvMsg := recvMsg + [m];
      Appended(m);
    }

    twostate lemma Appended(new m: NetMessage)
      requires old(Open()) && old(recvMsg != [] ==> recvMsg[|recvMsg| - 1].IsComplete())
      requires recvMsg == old(recvMsg) + [m] && m !in old(recvMsg) && m.Valid()
      requires forall x {:trigger x in old(recvMsg)} :: x in old(recvMsg) ==> unchanged(x)
      ensures Open() && Views(|recvMsg| - 1) == old(Views(|recvMsg|))
    {
      var n := |recvMsg| - 1;
      forall k | 0 <= k < n ensures recvMsg[k] != m && recvMsg[k].Valid() && recvMsg[k].IsComplete() && recvMsg[k].View() == old(recvMsg[k].View()) {
        assert recvMsg[k] == old(recvMsg[k]) && recvMsg[k] in old(recvMsg);
      }
    }

    lemma LastOpen()
      requires Valid() && recvMsg != [] && !recvMsg[|recvMsg| - 1].IsComplete()
      ensures AtTurn(View(), Views(|recvMsg| - 1), recvMsg[|recvMsg| - 1].View())
    {
      var n := |recvMsg| - 1;
      var m := recvMsg[n];
      assert m.hdrbuf[..HEADER_SIZE] == m.hdrbuf;
      assert n > 0 ==> Views(n)[n - 1] == recvMsg[n - 1].View();
      assert Views(n) + [m.View()] == View().msgs;
    }

    lemma LastComplete()
      requires Valid() && (recvMsg != [] ==> recvMsg[|recvMsg| - 1].IsComplete())
      ensures AtTurn(View(), Views(|recvMsg|), Msg([], []))
    {
      var n := |recvMsg|;
      assert n > 0 ==> Views(n)[n - 1] == recvMsg[n - 1].View();
      assert Views(n) + [] == Views(n);
    }

    /** When only the last message changes, only the last view does. */
    twostate lemma OnlyLast(m: NetMessage)
      requires old(Open()) && recvMsg == old(recvMsg) != [] && m == recvMsg[|recvMsg| - 1] && m.Valid()
      requires forall x {:trigger x in recvMsg} :: x in recvMsg && x != m ==> unchanged(x)
      ensures Open() && Views(|recvMsg|) == old(Views(|recvMsg| - 1)) + [m.View()]
    {
      var n := |recvMsg| - 1;
      forall k | 0 <= k < n ensures recvMsg[k].Valid() && recvMsg[k].IsComplete() && recvMsg[k].View() == old(recvMsg[k].View()) {
        assert recvMsg[k] in recvMsg && recvMsg[k] != recvMsg[n];
      }
    }

    method ReadInto(m: NetMessage, chunk: seq<Byte>, ghost before: Inbox) returns (handled: int)
      requires Open() && recvMsg != [] && m == recvMsg[|recvMsg| - 1] && !m.IsComplete() && chunk != []
      requires AtTurn(before, Views(|recvMsg| - 1), m.View())
      modifies m
      ensures Valid() && Took(before, chunk, View(), handled)
    {
      ghost var done, was := Views(|recvMsg| - 1), m.View();
      handled := m.Read(chunk);
      OnlyLast(m);
      TurnTook(before, done, was, chunk, m.View(), handled);
      assert View() == Next(done, m.View());
    }

    /** One turn: the current message takes its share of the chunk, or the connection is refused. */
    method Absorb(chunk: seq<Byte>) returns (handled: int)
      requires Valid() && chunk != []
      modifies this, Last()
      ensures Valid() && Took(old(View()), chunk, View(), handled)
      ensures Last() == old(Last()) || fresh(Last())
    {
      ghost var before := View();
      var m := Current();
      handled := ReadInto(m, chunk, before);
    }

    /** `ReceiveMsgBytes` is `Feed`; each turn of the loop uses at least one byte. */
    method ReceiveMsgBytes(chunk: seq<Byte>) returns (ok: bool)
      requires Valid()
      modifies this, Last()
      ensures Valid() && View() == Feed(old(View()), chunk)
      ensures ok == (chunk == [] || !View().refused)
      ensures Last() == old(Last()) || fresh(Last())
    {
      var rest := chunk;
      while rest != []
        invariant Valid() && Feed(View(), rest) == Feed(old(View()), chunk)
        invariant rest == chunk || !View().refused
        invariant Last() == old(Last()) || fresh(Last())
        decreases |rest|
      {
        var handled := Absorb(rest);
        if handled < 0 {
          return false;
        }
        rest := rest[handled..];
      }
      return true;
    }
  }
}
