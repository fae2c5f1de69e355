/** CNode's buffers: the messages being received and the queue being sent, changed in place. */
module Net {
  import opened Basics
  import opened BigNum
  import Script
  import opened Channel

  /** The header as it is parsed. */
  datatype CMessageHeader = CMessageHeader(pchMessageStart: seq<byte>, pchCommand: seq<byte>, nMessageSize: nat,
    nChecksum: nat)

  function Parsed(hdrbuf: seq<byte>): CMessageHeader
    requires |hdrbuf| == HEADER_SIZE
  {
    CMessageHeader(hdrbuf[..4], hdrbuf[4..MESSAGE_SIZE_OFFSET], SizeField(hdrbuf),
      Script.FromLE(hdrbuf[CHECKSUM_OFFSET..]))
  }

  class CNetMessage {
    var in_data: bool
    var hdrbuf: seq<byte>
    var hdr: CMessageHeader
    var nHdrPos: nat
    var vRecv: seq<byte>
    var nDataPos: nat

    ghost predicate Valid()
      reads this
    {
      && |hdrbuf| == HEADER_SIZE && nHdrPos <= HEADER_SIZE && nDataPos <= |vRecv|
      && (in_data ==>
        nHdrPos == HEADER_SIZE && hdr == Parsed(hdrbuf) && nDataPos <= |vRecv| <= hdr.nMessageSize <= MAX_SIZE)
      && (!in_data ==> nDataPos == 0 && vRecv == [])
    }

    /** The header is not refused yet. */
    ghost predicate Open()
      reads this
    {
      in_data || nHdrPos < HEADER_SIZE
    }

    ghost function View(): Msg
      requires Valid()
      reads this
    {
      Msg(hdrbuf[..nHdrPos], vRecv[..nDataPos])
    }

    constructor ()
      ensures Valid() && Open() && View() == Msg([], [])
    {
      in_data := false;
      hdrbuf := Zeros(HEADER_SIZE);
      hdr := CMessageHeader([], [], 0, 0);
      nHdrPos, nDataPos, vRecv := 0, 0, [];
    }

    /** The buffer holds exactly the message's data once it is complete. */
    function complete(): (r: bool)
      requires Valid()
      reads this
      ensures Open() ==> (r <==> View().Complete())
      ensures r ==> vRecv == View().data
    {
      CompleteIs();
      in_data && hdr.nMessageSize == nDataPos
    }

    lemma CompleteIs()
      requires Valid()
      ensures Open() ==> (in_data && hdr.nMessageSize == nDataPos <==> View().Complete())
      ensures in_data && hdr.nMessageSize == nDataPos ==> vRecv == View().data
    {
      if in_data { assert hdrbuf[..nHdrPos] == hdrbuf; }
    }

    method readHeader(pch: seq<byte>) returns (handled: int)
      requires Valid() && !in_data && nHdrPos < HEADER_SIZE && pch != []
      modifies this
      ensures Valid()
      ensures var nCopy := Min(Room(old(View())), |pch|);
        && View() == Grown(old(View()), pch[..nCopy])
        && handled == (if Oversize(View()) then -1 else nCopy)
        && (Oversize(View()) <==> !Open())
    {
      var nRemaining := HEADER_SIZE - nHdrPos;
      var nCopy := if nRemaining < |pch| then nRemaining else |pch|;
      ghost var was := hdrbuf[..nHdrPos];
      hdrbuf := hdrbuf[..nHdrPos] + pch[..nCopy] + hdrbuf[nHdrPos + nCopy..];
      nHdrPos := nHdrPos + nCopy;
      assert hdrbuf[..nHdrPos] == was + pch[..nCopy];
      if nHdrPos < HEADER_SIZE { return nCopy; }
      assert hdrbuf[..nHdrPos] == hdrbuf;
      hdr := Parsed(hdrbuf);
      if hdr.nMessageSize > MAX_SIZE { return -1; }
      in_data := true;
      handled := nCopy;
    }

    method readData(pch: seq<byte>) returns (handled: int)
      requires Valid() && in_data
      modifies this
      ensures Valid() && Open()
      ensures var nCopy := Min(Room(old(View())), |pch|);
        handled == nCopy && View() == Grown(old(View()), pch[..nCopy]) && !Oversize(View())
    {
      assert hdrbuf[..nHdrPos] == hdrbuf;
      var nRemaining := hdr.nMessageSize - nDataPos;
      var nCopy := if nRemaining < |pch| then nRemaining else |pch|;
      ghost var was := vRecv[..nDataPos];
      if |vRecv| < nDataPos + nCopy {
        var nAhead := nDataPos + nCopy + 256 * 1024;
        var nNew := if hdr.nMessageSize < nAhead then hdr.nMessageSize else nAhead;
        vRecv := vRecv + Zeros(nNew - |vRecv|);
      }
      vRecv := vRecv[..nDataPos] + pch[..nCopy] + vRecv[nDataPos + nCopy..];
      nDataPos := nDataPos + nCopy;
      assert vRecv[..nDataPos] == was + pch[..nCopy];
      assert hdrbuf[..nHdrPos] == hdrbuf;
      handled := nCopy;
    }
  }

  // ----- the list of messages

  ghost function Views(ms: seq<CNetMessage>): seq<Msg>
    reads ms
    requires forall m :: m in ms ==> m.Valid()
  {
    if ms == [] then [] else Views(ms[..|ms| - 1]) + [ms[|ms| - 1].View()]
  }

  class CNode {
    // sending
    const wire: Wire
    var ssSend: seq<byte>
    var nSendSize: int
    var nSendOffset: nat
    var vSendMsg: seq<seq<byte>>
    var fDisconnect: bool
    ghost var written: seq<byte>      // what the socket has taken
    // receiving
    var vRecvMsg: seq<CNetMessage>

    ghost function OutView(): Out
      reads this
    {
      Out(vSendMsg, nSendOffset, nSendSize)
    }

    /** The messages received, apart from what is being sent. */
    ghost predicate RecvGood()
      reads this`vRecvMsg, vRecvMsg
    {
      && (forall i :: 0 <= i < |vRecvMsg| ==> vRecvMsg[i].Valid())
      && (forall i, j :: 0 <= i < j < |vRecvMsg| ==> vRecvMsg[i] != vRecvMsg[j])
    }

    ghost function RxView(failed: bool): Rx
      requires RecvGood()
      reads this`vRecvMsg, vRecvMsg
    {
      Rx(Views(vRecvMsg), failed)
    }

    /** No message has been refused. */
    ghost predicate RecvOpen()
      requires RecvGood()
      reads this`vRecvMsg, vRecvMsg
    {
      forall i :: 0 <= i < |vRecvMsg| ==> vRecvMsg[i].Open()
    }

    constructor (w: Wire)
      ensures wire == w && OutView() == Out([], 0, 0) && ssSend == [] && written == [] && !fDisconnect
      ensures RecvGood() && RecvOpen() && RxView(false) == Rx([], false)
    {
      wire := w;
      ssSend, nSendSize, nSendOffset, vSendMsg, fDisconnect := [], 0, 0, [], false;
      written, vRecvMsg := [], [];
    }

    /** The message under way, or a new one. */
    method CurrentMessage() returns (msg: CNetMessage)
      requires RecvGood() && RecvOpen()
      modifies this`vRecvMsg
      ensures forall i :: 0 <= i < |vRecvMsg| ==> vRecvMsg[i] in old(vRecvMsg) || fresh(vRecvMsg[i])
      ensures RecvGood() && RecvOpen()
      ensures |vRecvMsg| > 0 && msg == vRecvMsg[|vRecvMsg| - 1] && !msg.View().Complete()
      ensures RxView(false) == Opened(old(RxView(false)))
    {
      hide Views, Msg.Complete;
      LastView(vRecvMsg);
      if |vRecvMsg| == 0 || vRecvMsg[|vRecvMsg| - 1].complete() {
        ghost var before := vRecvMsg;
        var m := new CNetMessage();
        vRecvMsg := vRecvMsg + [m];
        ViewsMore(before, m);
        EmptyIncomplete();
      }
      msg := vRecvMsg[|vRecvMsg| - 1];
    }

    /** One round of ReceiveMsgBytes: what the message under way can take. */
    method ReceiveSome(pch: seq<byte>) returns (handled: int)
      requires RecvGood() && RecvOpen() && pch != []
      modifies this`vRecvMsg, vRecvMsg
      ensures forall i :: 0 <= i < |vRecvMsg| ==> vRecvMsg[i] in old(vRecvMsg) || fresh(vRecvMsg[i])
      ensures RecvGood()
      ensures handled >= 0 ==> RecvOpen() && 0 < handled <= |pch|
      ensures handled >= 0 ==> Feed(old(RxView(false)), pch[..handled]) == RxView(false)
      ensures handled < 0 ==> Feed(old(RxView(false)), pch) == RxView(true)
    {
      hide Feed, Room, Grown, Oversize, Opened, Views, WithLast;
      ghost var rx := RxView(false);
      var msg := CurrentMessage();
      ghost var front := vRecvMsg[..|vRecvMsg| - 1];
      ghost var was := msg.View();
      assert msg in vRecvMsg && msg !in front && vRecvMsg == front + [msg];
      OpenRoom(msg);
      LastView(vRecvMsg);
      ViewsMore(front, msg);
      FeedSome(rx, was, pch);
      if !msg.in_data {
        handled := msg.readHeader(pch);
      } else {
        handled := msg.readData(pch);
      }
      ViewsMore(front, msg);
      ReplacedLast(Opened(rx), Views(front), was, msg.View());
    }

    /** However the bytes are cut into chunks, the messages are those of the bytes taken one by one. */
    method ReceiveMsgBytes(pch: seq<byte>) returns (ok: bool)
      requires RecvGood() && RecvOpen()
      modifies this`vRecvMsg, vRecvMsg
      ensures forall i :: 0 <= i < |vRecvMsg| ==> vRecvMsg[i] in old(vRecvMsg) || fresh(vRecvMsg[i])
      ensures RecvGood() && (ok ==> RecvOpen())
      ensures Feed(old(RxView(false)), pch) == RxView(!ok)
    {
      hide Feed;
      ghost var rx := RxView(false);
      var rest := pch;
      while |rest| > 0
        invariant RecvGood() && RecvOpen()
        invariant forall i :: 0 <= i < |vRecvMsg| ==> vRecvMsg[i] in old(vRecvMsg) || fresh(vRecvMsg[i])
        invariant Feed(rx, pch) == Feed(RxView(false), rest)
      {
        ghost var was := RxView(false);
        var handled := ReceiveSome(rest);
        if handled < 0 { return false; }
        FeedAppend(was, rest[..handled], rest[handled..]);
        assert rest == rest[..handled] + rest[handled..];
        rest := rest[handled..];
      }
      FeedNothing(RxView(false));
      assert rest == [];
      ok := true;
    }

    // ----- sending

    /** Write queued messages as long as the socket takes them: take(i, n) is what the i-th call makes of n bytes
        offered, and fatal(i) whether its error ends the connection. The result is the number of bytes taken. */
    method SocketSendData(take: (nat, nat) -> int, fatal: nat -> bool) returns (ghost n: nat)
      requires OutGood(OutView()) && forall i, k :: take(i, k) <= k
      modifies this`nSendSize, this`nSendOffset, this`vSendMsg, this`fDisconnect, this`written
      ensures n <= |Pending(old(OutView()))|
      ensures OutView() == AfterSend(old(OutView()), n) && OutGood(OutView())
      ensures written == old(written) + Pending(old(OutView()))[..n]
      ensures (forall i, k :: take(i, k) == k) ==> vSendMsg == []
    {
      hide Pending, AfterSend, OutGood;
      ghost var o := OutView();
      var it, calls := 0, 0;
      n := 0;
      SendNothing(o);
      while it < |vSendMsg|
        invariant 0 <= it <= |vSendMsg| && vSendMsg == old(vSendMsg) && n <= |Pending(o)|
        invariant AfterSend(o, n) == Out(vSendMsg[it..], nSendOffset, nSendSize)
        invariant written == old(written) + Pending(o)[..n]
      {
        var data := vSendMsg[it];
        ghost var now := Out(vSendMsg[it..], nSendOffset, nSendSize);
        AfterSendGood(o, n);
        HeadLeft(now);
        var nBytes := take(calls, |data| - nSendOffset);
        calls := calls + 1;
        if nBytes > 0 {
          SendSome(now, nBytes);
          assert now.queue[1..] == vSendMsg[it + 1..];
          AfterSendTwice(o, n, nBytes);
          written := written + data[nSendOffset..nSendOffset + nBytes];
          TakeTwice(Pending(o), n, nBytes);
          n := n + nBytes;
          nSendOffset := nSendOffset + nBytes;
          if nSendOffset == |data| {
            nSendOffset := 0;
            nSendSize := nSendSize - |data|;
            it := it + 1;
          } else {
            break;
          }
        } else {
          if nBytes < 0 && fatal(calls - 1) { fDisconnect := true; }
          break;
        }
      }
      AfterSendGood(o, n);
      if it == |vSendMsg| {
        NothingLeft(Out(vSendMsg[it..], nSendOffset, nSendSize));
        assert nSendOffset == 0;
        assert nSendSize == 0;
      }
      vSendMsg := vSendMsg[it..];
    }

    method BeginMessage(pszCommand: seq<byte>)
      requires ssSend == []
      modifies this`ssSend
      ensures ssSend == Header(wire, pszCommand, 0, [0, 0, 0, 0])
    {
      ssSend := ssSend + Header(wire, pszCommand, 0, [0, 0, 0, 0]);
    }

    method AbortMessage()
      modifies this`ssSend
      ensures ssSend == []
    {
      ssSend := [];
    }

    /** Put size and checksum into the message begun, queue it, and start sending if nothing was queued. */
    method EndMessage(take: (nat, nat) -> int, fatal: nat -> bool) returns (ghost n: nat)
      requires OutGood(OutView()) && (forall i, k :: take(i, k) <= k) && (ssSend == [] || |ssSend| >= HEADER_SIZE)
      modifies this`ssSend, this`nSendSize, this`nSendOffset, this`vSendMsg, this`fDisconnect, this`written
      ensures ssSend == [] && OutGood(OutView())
      ensures old(ssSend) == [] ==> OutView() == old(OutView()) && written == old(written)
      ensures old(ssSend) != [] ==>
        var q := Queued(old(OutView()), Sealed(wire, old(ssSend)));
        && OutGood(q) && n <= |Pending(q)|
        && OutView() == AfterSend(q, n) && written == old(written) + Pending(q)[..n]
        && (old(vSendMsg) != [] ==> n == 0)
    {
      hide Pending, AfterSend, OutGood;
      n := 0;
      if |ssSend| == 0 { return; }
      ghost var was := ssSend;
      var nSize := |ssSend| - HEADER_SIZE;
      ssSend := ssSend[..MESSAGE_SIZE_OFFSET] + Script.LE(nSize, 4) + ssSend[CHECKSUM_OFFSET..];
      assert ssSend[HEADER_SIZE..] == was[HEADER_SIZE..] && ssSend[..MESSAGE_SIZE_OFFSET] == was[..MESSAGE_SIZE_OFFSET];
      assert ssSend[..CHECKSUM_OFFSET] == was[..MESSAGE_SIZE_OFFSET] + Script.LE(nSize, 4);
      var nChecksum := wire.checksum(ssSend[HEADER_SIZE..]);
      ssSend := ssSend[..CHECKSUM_OFFSET] + nChecksum + ssSend[HEADER_SIZE..];
      assert ssSend == Sealed(wire, was) by {
        assert ssSend[HEADER_SIZE..] == was[HEADER_SIZE..];
      }
      var first := |vSendMsg| == 0;
      QueuedGood(OutView(), ssSend);
      vSendMsg := vSendMsg + [ssSend];
      nSendSize := nSendSize + |ssSend|;
      ssSend := [];
      SendNothing(OutView());
      if first {
        n := SocketSendData(take, fatal);
      }
    }

    /** PushMessage with the payload already serialized. */
    method PushMessage(pszCommand: seq<byte>, payload: seq<byte>, take: (nat, nat) -> int,
                       fatal: nat -> bool) returns (ghost n: nat)
      requires OutGood(OutView()) && (forall i, k :: take(i, k) <= k) && ssSend == []
      modifies this`ssSend, this`nSendSize, this`nSendOffset, this`vSendMsg, this`fDisconnect, this`written
      ensures ssSend == [] && OutGood(OutView())
      ensures var q := Queued(old(OutView()), Frame(wire, pszCommand, payload));
        && OutGood(q) && n <= |Pending(q)|
        && OutView() == AfterSend(q, n) && written == old(written) + Pending(q)[..n]
    {
      hide Pending, AfterSend, OutGood, Sealed, Frame;
      BeginMessage(pszCommand);
      ssSend := ssSend + payload;
      SealedIsFrame(wire, pszCommand, payload);
      n := EndMessage(take, fatal);
    }
  }

  // ----- steps of SocketSendData

  lemma SendNothing(o: Out)
    requires OutGood(o)
    ensures AfterSend(o, 0) == o && Pending(o)[..0] == [] && o.queue[0..] == o.queue
  {
  }

  lemma HeadLeft(o: Out)
    requires OutGood(o) && o.queue != []
    ensures o.offset < |o.queue[0]|
  {
  }

  lemma TakeTwice(s: seq<byte>, n: nat, k: nat)
    requires n + k <= |s|
    ensures s[..n + k] == s[..n] + s[n..][..k]
  {
  }

  lemma SendSome(o: Out, n: nat)
    requires OutGood(o) && o.queue != [] && o.offset + n <= |o.queue[0]|
    ensures n <= |Pending(o)| && Pending(o)[..n] == o.queue[0][o.offset..o.offset + n]
    ensures AfterSend(o, n) ==
      if o.offset + n < |o.queue[0]| then o.(offset := o.offset + n) else Out(o.queue[1..], 0, o.size - |o.queue[0]|)
  {
    if o.offset + n == |o.queue[0]| {
      var t := Out(o.queue[1..], 0, o.size - |o.queue[0]|);
      assert t.queue != [] ==> t.queue[0] == o.queue[1];
      SendNothing(t);
    }
  }

  lemma NothingLeft(o: Out)
    requires OutGood(o) && o.queue == []
    ensures o.offset == 0 && o.size == 0
  {
  }

  lemma OpenRoom(msg: CNetMessage)
    requires msg.Valid() && msg.Open() && !msg.View().Complete()
    ensures var m := msg.View();
      |m.hdr| <= HEADER_SIZE && !Oversize(m) && (|m.hdr| < HEADER_SIZE ==> m.data == []) && Room(m) > 0
      && (|m.hdr| < HEADER_SIZE <==> !msg.in_data)
  {
    if msg.in_data { assert msg.hdrbuf[..msg.nHdrPos] == msg.hdrbuf; }
  }

  lemma ViewsMore(ms: seq<CNetMessage>, m: CNetMessage)
    requires forall x :: x in ms ==> x.Valid()
    requires m.Valid()
    ensures forall x :: x in ms + [m] ==> x.Valid()
    ensures Views(ms + [m]) == Views(ms) + [m.View()]
  {
    assert (ms + [m])[..|ms|] == ms;
  }

  lemma EmptyIncomplete()
    ensures !Msg([], []).Complete()
  {
  }

  lemma ReplacedLast(o: Rx, front: seq<Msg>, was: Msg, now: Msg)
    requires o.msgs == front + [was]
    ensures WithLast(o, now) == Rx(front + [now], o.failed)
  {
  }

  lemma LastView(ms: seq<CNetMessage>)
    requires forall m :: m in ms ==> m.Valid()
    ensures |Views(ms)| == |ms| && (ms != [] ==> Views(ms)[|ms| - 1] == ms[|ms| - 1].View())
  {
    if ms != [] { LastView(ms[..|ms| - 1]); }
  }
}
