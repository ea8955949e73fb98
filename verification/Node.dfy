/** The send and receive queues of a CNode, updated in place by the loops of net.cpp. */
module Node {
  import opened Collections
  import opened Numbers
  import opened Framing
  import opened Channel

  method ReadHeader(msg: NetMessage, pch: seq<byte>) returns (m: NetMessage, handled: int)
    requires MessageOk(msg) && !msg.inData
    ensures (m, handled) == HeaderRead(msg, pch)
  {
    m := msg;
    var nRemaining := HEADER_SIZE - m.nHdrPos;
    var nCopy := Min(nRemaining, |pch|);
    m := m.(hdrbuf := Overwritten(m.hdrbuf, m.nHdrPos, pch[..nCopy]));
    m := m.(nHdrPos := m.nHdrPos + nCopy);
    if m.nHdrPos < HEADER_SIZE {
      return m, nCopy;
    }
    m := m.(hdr := ParseHeader(m.hdrbuf));
    if m.hdr.size > MAX_SIZE {
      return m, -1;
    }
    m := m.(inData := true);
    return m, nCopy;
  }

  method ReadData(msg: NetMessage, pch: seq<byte>) returns (m: NetMessage, handled: int)
    requires MessageOk(msg) && msg.inData
    ensures (m, handled) == DataRead(msg, pch)
  {
    m := msg;
    var nRemaining := m.hdr.size - m.nDataPos;
    var nCopy := Min(nRemaining, |pch|);
    if |m.vRecv| < m.nDataPos + nCopy {
      var room := Min(m.hdr.size, m.nDataPos + nCopy + 256 * 1024);
      m := m.(vRecv := m.vRecv + seq(room - |m.vRecv|, _ => 0));
    }
    m := m.(vRecv := Overwritten(m.vRecv, m.nDataPos, pch[..nCopy]));
    m := m.(nDataPos := m.nDataPos + nCopy);
    return m, nCopy;
  }

  class CNode {
    const net: Network
    var vSendMsg: seq<seq<byte>>
    var nSendSize: int
    var nSendOffset: nat
    var vRecvMsg: seq<NetMessage>

    constructor (net: Network)
      ensures this.net == net && OutQueue() == Idle.sender && vRecvMsg == []
    {
      this.net := net;
      vSendMsg, nSendSize, nSendOffset, vRecvMsg := [], 0, 0, [];
    }

    ghost function OutQueue(): Sender
      reads this
    {
      Sender(vSendMsg, nSendOffset, nSendSize)
    }

    /** Get the current incomplete message, or create a new one. */
    method OpenMessage()
      requires MessagesOk(vRecvMsg)
      modifies this`vRecvMsg
      ensures vRecvMsg == Settled(old(vRecvMsg)) + [Current(net.magic, old(vRecvMsg))]
    {
      if vRecvMsg == [] || Complete(vRecvMsg[|vRecvMsg| - 1]) {
        TakeAll(vRecvMsg);
        vRecvMsg := vRecvMsg + [NewMessage(net.magic)];
      }
    }

    /** The part of one round of ReceiveMsgBytes that absorbs bytes into the current message. */
    method TakeBytes(pch: seq<byte>) returns (ok: bool, handled: int)
      requires MessagesOk(vRecvMsg) && pch != []
      modifies this`vRecvMsg
      ensures MessageOk(Current(net.magic, old(vRecvMsg)))
      ensures var r := Absorb(Current(net.magic, old(vRecvMsg)), pch);
        ok == r.Some? && (ok ==> handled == r.value.1 && vRecvMsg == Settled(old(vRecvMsg)) + [r.value.0])
    {
      CurrentOk(net.magic, vRecvMsg);
      OpenMessage();
      var last := |vRecvMsg| - 1;
      var msg := vRecvMsg[last];
      if !msg.inData {
        msg, handled := ReadHeader(msg, pch);
        if handled >= 0 && msg.inData && msg.hdr.size > MAX_PROTOCOL_MESSAGE_LENGTH {
          vRecvMsg := vRecvMsg[last := msg];
          return false, handled;
        }
      } else {
        msg, handled := ReadData(msg, pch);
      }
      ReplaceLast(Settled(old(vRecvMsg)), Current(net.magic, old(vRecvMsg)), msg);
      vRecvMsg := vRecvMsg[last := msg];
      return handled >= 0, handled;
    }

    /** Returns false where the peer is given up; `complete` tells whether a message became complete. */
    method ReceiveMsgBytes(pch: seq<byte>) returns (ok: bool, complete: bool)
      requires MessagesOk(vRecvMsg)
      modifies this`vRecvMsg
      ensures var r := Receive(net.magic, old(vRecvMsg), pch); ok == r.Some? && (ok ==> vRecvMsg == r.value)
      ensures ok ==> complete == (CompleteCount(vRecvMsg) > CompleteCount(old(vRecvMsg)))
    {
      complete := false;
      var rest := pch;
      ghost var goal := Receive(net.magic, vRecvMsg, pch);
      while rest != []
        invariant MessagesOk(vRecvMsg) && Receive(net.magic, vRecvMsg, rest) == goal
        invariant CompleteCount(vRecvMsg) >= CompleteCount(old(vRecvMsg))
        invariant complete == (CompleteCount(vRecvMsg) > CompleteCount(old(vRecvMsg)))
        decreases |rest|
      {
        ghost var msgs := vRecvMsg;
        var handled;
        ok, handled := TakeBytes(rest);
        if !ok {
          return;
        }
        RoundKeeps(net.magic, msgs, rest, vRecvMsg[|vRecvMsg| - 1], handled);
        rest := rest[handled..];
        if Complete(vRecvMsg[|vRecvMsg| - 1]) {
          complete := true;
        }
      }
      ok := true;
    }

    /** One call of send: what it accepted of the first buffer, and whether that was all of it. */
    method SendBuffer(data: seq<byte>, result: int) returns (nBytes: int, whole: bool)
      requires nSendOffset < |data|
      modifies this`nSendSize, this`nSendOffset
      ensures nBytes == (if result <= |data| - old(nSendOffset) then result else |data| - old(nSendOffset))
      ensures whole == (nBytes == |data| - old(nSendOffset))
      ensures nSendOffset ==
        (if whole || nBytes <= 0 then (if whole then 0 else old(nSendOffset)) else old(nSendOffset) + nBytes)
      ensures nSendSize == (if whole then old(nSendSize) - |data| else old(nSendSize))
    {
      nBytes := if result <= |data| - nSendOffset then result else |data| - nSendOffset;
      whole := false;
      if nBytes > 0 {
        nSendOffset := nSendOffset + nBytes;
        if nSendOffset == |data| {
          nSendOffset := 0;
          nSendSize := nSendSize - |data|;
          whole := true;
        }
      }
    }

    /**
     * `sends` are the results of the calls of send. Buffers sent whole are dropped one by one, instead of together
     * at the end. The asserts are those of the source.
     */
    method SocketSendData(sends: seq<int>) returns (nSentSize: nat, ghost sent: seq<byte>)
      requires SenderOk(OutQueue())
      modifies this`vSendMsg, this`nSendSize, this`nSendOffset
      ensures (OutQueue(), sent) == Send(old(OutQueue()), sends) && nSentSize == |sent| && SenderOk(OutQueue())
    {
      nSentSize, sent := 0, [];
      ghost var goal := Send(OutQueue(), sends);
      EmptyAppend(goal.1);
      SendKeeps(OutQueue(), sends);
      var results := sends;
      var whole := true;
      while whole && vSendMsg != [] && results != []
        invariant nSentSize == |sent|
        invariant if whole then Remaining(goal, OutQueue(), results, sent) else goal == (OutQueue(), sent)
        decreases |vSendMsg|, whole
      {
        var data := vSendMsg[0];
        SendStep(goal, OutQueue(), results, sent);
        assert |data| > nSendOffset;
        ghost var offset := nSendOffset;
        var nBytes;
        nBytes, whole := SendBuffer(data, results[0]);
        results := results[1..];
        if nBytes > 0 {
          nSentSize := nSentSize + nBytes;
          sent := sent + data[offset..offset + nBytes];
        }
        if whole {
          vSendMsg := vSendMsg[1..];
        }
      }
      EmptyAppend(sent);
      if vSendMsg == [] {
        assert nSendOffset == 0;
        assert nSendSize == 0;
      }
    }

    method PushMessage(msg: Message, sends: seq<int>) returns (ghost sent: seq<byte>)
      requires ValidNetwork(net) && |msg.data| < 0x1_0000_0000 && SenderOk(OutQueue())
      modifies this`vSendMsg, this`nSendSize, this`nSendOffset
      ensures var q := Queued(net, old(OutQueue()), msg);
        SenderOk(q) && (OutQueue(), sent) == if old(vSendMsg) == [] then Send(q, sends) else (q, [])
    {
      QueuedKeeps(net, OutQueue(), msg);
      var nMessageSize := |msg.data|;
      var nTotalSize := nMessageSize + HEADER_SIZE;
      var serializedHeader := HeaderBytes(Header(net.magic, CommandField(msg.command), nMessageSize,
        net.checksum(msg.data)));
      var optimisticSend := vSendMsg == [];
      nSendSize := nSendSize + nTotalSize;
      vSendMsg := vSendMsg + [serializedHeader];
      if nMessageSize > 0 {
        vSendMsg := vSendMsg + [msg.data];
      }
      sent := [];
      assert vSendMsg == old(vSendMsg) + Buffers(net, msg);
      if optimisticSend {
        var nBytesSent;
        nBytesSent, sent := SocketSendData(sends);
      }
    }
  }

  lemma {:induction false} ReplaceLast<T>(s: seq<T>, a: T, b: T)
    ensures (s + [a])[|s| := b] == s + [b]
  {
  }

  /** Sending `sends` from `s` on, after the bytes `sent`, arrives at `goal`. */
  ghost predicate Remaining(goal: (Sender, seq<byte>), s: Sender, sends: seq<int>, sent: seq<byte>) {
    SenderOk(s) && goal == (Send(s, sends).0, sent + Send(s, sends).1)
  }

  /** One round of the loop: the first buffer goes out whole, in part, or not at all. */
  lemma {:induction false} SendStep(goal: (Sender, seq<byte>), s: Sender, sends: seq<int>, sent: seq<byte>)
    requires Remaining(goal, s, sends, sent) && s.queue != []
    ensures if sends == [] || sends[0] <= 0 then goal == (s, sent)
      else if sends[0] >= |s.queue[0]| - s.offset
      then Remaining(goal, Sender(s.queue[1..], 0, s.size - |s.queue[0]|), sends[1..],
        sent + s.queue[0][s.offset..|s.queue[0]|])
      else goal == (s.(offset := s.offset + sends[0]), sent + s.queue[0][s.offset..s.offset + sends[0]])
  {
    FirstDone(s);
    EmptyAppend(sent);
    TakeAll(s.queue[0]);
    var next := Sender(s.queue[1..], 0, s.size - |s.queue[0]|);
    if sends != [] {
      Assoc(sent, s.queue[0][s.offset..], Send(next, sends[1..]).1);
    }
  }
}
