/** Message headers and the receiving state of one message (protocol.h, net.h). */
module Framing {
  import opened Numbers

  const HEADER_SIZE := 24
  const MAX_SIZE := 0x02000000
  const MAX_PROTOCOL_MESSAGE_LENGTH := 4 * 1000 * 1000

  /** The network's message start, and the first four bytes of the hash of a payload. */
  datatype Network = Network(magic: seq<byte>, checksum: seq<byte> -> seq<byte>)

  ghost predicate ValidNetwork(net: Network) {
    |net.magic| == 4 && forall data :: |net.checksum(data)| == 4
  }

  datatype Header = Header(start: seq<byte>, command: seq<byte>, size: nat, checksum: seq<byte>)

  predicate ValidHeader(h: Header) {
    |h.start| == 4 && |h.command| == 12 && h.size < 0x1_0000_0000 && |h.checksum| == 4
  }

  function WriteSize(n: nat): (b: seq<byte>)
    requires n < 0x1_0000_0000
    ensures |b| == 4
  {
    [n % 256, n / 256 % 256, n / 256 / 256 % 256, n / 256 / 256 / 256]
  }

  function ReadSize(b: seq<byte>): (n: nat)
    requires |b| == 4
    ensures n < 0x1_0000_0000
  {
    b[0] as nat + 256 * (b[1] as nat + 256 * (b[2] as nat + 256 * b[3] as nat))
  }

  function HeaderBytes(h: Header): (b: seq<byte>)
    requires ValidHeader(h)
    ensures |b| == HEADER_SIZE
  {
    h.start + h.command + WriteSize(h.size) + h.checksum
  }

  function ParseHeader(b: seq<byte>): (h: Header)
    requires |b| == HEADER_SIZE
    ensures ValidHeader(h)
  {
    Header(b[..4], b[4..16], ReadSize(b[16..20]), b[20..])
  }

  lemma {:induction false} SizeRoundTrip(n: nat, b: seq<byte>)
    requires n < 0x1_0000_0000 && |b| == 4
    ensures ReadSize(WriteSize(n)) == n && WriteSize(ReadSize(b)) == b
  {
    var x1 := b[2] as nat + 256 * b[3] as nat;
    var x2 := b[1] as nat + 256 * x1;
    assert x1 / 256 == b[3] && x1 % 256 == b[2];
    assert x2 / 256 == x1 && x2 % 256 == b[1];
    assert ReadSize(b) / 256 == x2 && ReadSize(b) % 256 == b[0];
  }

  /** Reading a header undoes writing it, and the other way round. */
  lemma {:induction false} HeaderRoundTrip(h: Header, b: seq<byte>)
    requires ValidHeader(h) && |b| == HEADER_SIZE
    ensures ParseHeader(HeaderBytes(h)) == h && HeaderBytes(ParseHeader(b)) == b
  {
    SizeRoundTrip(h.size, b[16..20]);
    var w := HeaderBytes(h);
    assert w[..4] == h.start && w[4..16] == h.command && w[16..20] == WriteSize(h.size) && w[20..] == h.checksum;
    assert b == b[..4] + b[4..16] + b[16..20] + b[20..];
  }

  // ----- what is sent -----

  /** A CSerializedNetMsg. */
  datatype Message = Message(command: seq<byte>, data: seq<byte>)

  /** The part of a command before a NUL. */
  function CString(s: seq<byte>): seq<byte> {
    if s == [] || s[0] == 0 then [] else [s[0]] + CString(s[1..])
  }

  /** strncpy into twelve zeroed bytes. */
  function CommandField(command: seq<byte>): (f: seq<byte>)
    ensures |f| == 12
  {
    var c := CString(command);
    if |c| >= 12 then c[..12] else c + seq(12 - |c|, _ => 0)
  }

  function HeaderOf(net: Network, m: Message): (h: Header)
    requires ValidNetwork(net) && |m.data| < 0x1_0000_0000
    ensures ValidHeader(h)
  {
    Header(net.magic, CommandField(m.command), |m.data|, net.checksum(m.data))
  }

  function Frame(net: Network, m: Message): (f: seq<byte>)
    requires ValidNetwork(net) && |m.data| < 0x1_0000_0000
    ensures |f| == HEADER_SIZE + |m.data|
  {
    HeaderBytes(HeaderOf(net, m)) + m.data
  }

  lemma {:induction false} CStringPadded(c: seq<byte>, n: nat)
    requires 0 !in c
    ensures CString(c + seq(n, _ => 0)) == c
  {
    var zeros: seq<byte> := seq(n, _ => 0);
    if c == [] {
      assert c + zeros == zeros;
    } else {
      assert (c + zeros)[1..] == c[1..] + zeros;
      CStringPadded(c[1..], n);
    }
  }

  lemma {:induction false} CStringClean(s: seq<byte>)
    ensures 0 !in CString(s)
    ensures CString(s) == s <==> 0 !in s
  {
    if s != [] && s[0] != 0 {
      CStringClean(s[1..]);
      assert s == [s[0]] + s[1..];
    }
  }

  /** GetCommand on a received header gives back a command exactly if it has at most twelve bytes and no NUL. */
  lemma {:induction false} CommandRoundTrip(command: seq<byte>)
    ensures CString(CommandField(command)) == command <==> |command| <= 12 && 0 !in command
  {
    CStringClean(command);
    var c := CString(command);
    if |c| >= 12 {
      CStringPadded(c[..12], 0);
      assert c[..12] + seq(0, _ => 0) == c[..12];
      assert c[..12] == command ==> |command| == 12 && 0 !in command;
      assert |command| <= 12 && 0 !in command ==> c[..12] == command;
    } else {
      CStringPadded(c, 12 - |c|);
    }
  }

  /** Byte `k` of a command, or zero from its first NUL or its end on. */
  function CommandByte(command: seq<byte>, k: nat): byte {
    if k < |command| && 0 !in command[..k + 1] then command[k] else 0
  }

  lemma {:induction false} CStringAt(s: seq<byte>, k: nat)
    ensures k < |CString(s)| <==> k < |s| && 0 !in s[..k + 1]
    ensures k < |CString(s)| ==> CString(s)[k] == s[k]
  {
    if s != [] && s[0] != 0 && k > 0 {
      CStringAt(s[1..], k - 1);
      if k < |s| {
        assert s[..k + 1] == [s[0]] + s[1..][..k];
      }
    } else if s != [] {
      assert s[..1] == [s[0]];
      assert k < |s| && s[0] == 0 ==> s[..k + 1][0] == 0;
    }
  }

  /** Where the parts of a frame stand: the message start, the command padded with zeros, the size of the payload with
      its least significant byte first, the checksum, and the payload. */
  lemma {:induction false} FrameLayout(net: Network, m: Message, k: nat)
    requires ValidNetwork(net) && |m.data| < 0x1_0000_0000 && k < 12
    ensures var f := Frame(net, m);
      && f[..4] == net.magic && f[4 + k] == CommandByte(m.command, k)
      && f[16] as nat + 0x100 * f[17] as nat + 0x1_0000 * f[18] as nat + 0x100_0000 * f[19] as nat == |m.data|
      && f[20..24] == net.checksum(m.data) && f[24..] == m.data
  {
    var h, f := HeaderOf(net, m), Frame(net, m);
    SizeRoundTrip(|m.data|, WriteSize(|m.data|));
    CStringAt(m.command, k);
    assert f[..4] == h.start && f[4..16] == h.command && f[20..24] == h.checksum && f[24..] == m.data;
    assert f[16..20] == WriteSize(|m.data|);
    assert f[4 + k] == f[4..16][k];
    assert f[16] == f[16..20][0] && f[17] == f[16..20][1] && f[18] == f[16..20][2] && f[19] == f[16..20][3];
  }

  // ----- what is received -----

  /** A CNetMessage: header bytes so far, then the header and the data so far in a growing buffer. */
  datatype NetMessage = NetMessage(inData: bool, hdrbuf: seq<byte>, nHdrPos: nat, hdr: Header, vRecv: seq<byte>,
    nDataPos: nat)

  function NewMessage(magic: seq<byte>): NetMessage {
    NetMessage(false, seq(HEADER_SIZE, _ => 0), 0, Header(magic, seq(12, _ => 0), 0xFFFF_FFFF, seq(4, _ => 0)), [], 0)
  }

  predicate Complete(m: NetMessage) {
    m.inData && m.hdr.size == m.nDataPos
  }

  /** What holds of a message between calls. */
  predicate MessageOk(m: NetMessage) {
    && |m.hdrbuf| == HEADER_SIZE
    && (if m.inData
        then
          && ValidHeader(m.hdr) && m.hdr.size <= MAX_PROTOCOL_MESSAGE_LENGTH
          && m.nDataPos <= |m.vRecv| <= m.hdr.size
        else m.nHdrPos < HEADER_SIZE && m.vRecv == [] && m.nDataPos == 0)
  }

  /** The bytes a message has absorbed. */
  function Absorbed(m: NetMessage): seq<byte>
    requires MessageOk(m)
  {
    if m.inData then HeaderBytes(m.hdr) + m.vRecv[..m.nDataPos] else m.hdrbuf[..m.nHdrPos]
  }

  /** memcpy into the middle of a buffer. */
  function Overwritten(buf: seq<byte>, pos: nat, data: seq<byte>): (r: seq<byte>)
    requires pos + |data| <= |buf|
    ensures |r| == |buf| && r[..pos + |data|] == buf[..pos] + data
  {
    buf[..pos] + data + buf[pos + |data|..]
  }

  /** readHeader: the message afterwards and the number of bytes handled, -1 on failure. */
  function HeaderRead(m: NetMessage, pch: seq<byte>): (NetMessage, int)
    requires MessageOk(m) && !m.inData
  {
    var nCopy: int := Min(HEADER_SIZE - m.nHdrPos, |pch|);
    var m1 := m.(hdrbuf := Overwritten(m.hdrbuf, m.nHdrPos, pch[..nCopy]), nHdrPos := m.nHdrPos + nCopy);
    if m1.nHdrPos < HEADER_SIZE then (m1, nCopy) else
      var m2 := m1.(hdr := ParseHeader(m1.hdrbuf));
      if m2.hdr.size > MAX_SIZE then (m2, -1) else (m2.(inData := true), nCopy)
  }

  /** readData, with its buffer allocated up to 256 KiB ahead. */
  function DataRead(m: NetMessage, pch: seq<byte>): (NetMessage, nat)
    requires MessageOk(m) && m.inData
  {
    var nCopy := Min(m.hdr.size - m.nDataPos, |pch|);
    var room := Min(m.hdr.size, m.nDataPos + nCopy + 256 * 1024);
    var buf := if |m.vRecv| < m.nDataPos + nCopy then m.vRecv + seq(room - |m.vRecv|, _ => 0) else m.vRecv;
    (m.(vRecv := Overwritten(buf, m.nDataPos, pch[..nCopy]), nDataPos := m.nDataPos + nCopy), nCopy)
  }

  lemma {:induction false} HeaderAbsorbs(m: NetMessage, pch: seq<byte>)
    requires MessageOk(m) && !m.inData && pch != []
    ensures var (m1, handled) := HeaderRead(m, pch);
      handled >= 0 && (m1.inData ==> m1.hdr.size <= MAX_PROTOCOL_MESSAGE_LENGTH) ==>
        0 < handled <= |pch| && MessageOk(m1) && Absorbed(m1) == Absorbed(m) + pch[..handled]
    ensures var (m1, handled) := HeaderRead(m, pch);
      (handled < 0 || m1.inData) ==>
        && m.nHdrPos + |pch| >= HEADER_SIZE && ValidHeader(m1.hdr)
        && HeaderBytes(m1.hdr) == Absorbed(m) + pch[..HEADER_SIZE - m.nHdrPos]
    ensures HeaderRead(m, pch).1 < 0 ==> HeaderRead(m, pch).0.hdr.size > MAX_SIZE
  {
    var nCopy := Min(HEADER_SIZE - m.nHdrPos, |pch|);
    var buf := Overwritten(m.hdrbuf, m.nHdrPos, pch[..nCopy]);
    if m.nHdrPos + nCopy == HEADER_SIZE {
      assert buf[..m.nHdrPos + nCopy] == buf;
      HeaderRoundTrip(ParseHeader(buf), buf);
    }
    var (m1, handled) := HeaderRead(m, pch);
    if m1.inData {
      assert m1.vRecv[..0] == [];
    }
  }

  lemma {:induction false} DataAbsorbs(m: NetMessage, pch: seq<byte>)
    requires MessageOk(m) && m.inData && !Complete(m) && pch != []
    ensures var (m1, handled) := DataRead(m, pch);
      0 < handled <= |pch| && MessageOk(m1) && m1.inData && Absorbed(m1) == Absorbed(m) + pch[..handled]
  {
    var (m1, handled) := DataRead(m, pch);
    assert m1.vRecv[..m1.nDataPos] == m.vRecv[..m.nDataPos] + pch[..handled];
  }
}

/** The send queue, the wire and the receive queue, from one node to another (net.cpp). */
module Channel {
  import opened Collections
  import opened Numbers
  import opened Framing

  // ----- receiving -----

  predicate MessageAt(msgs: seq<NetMessage>, i: nat)
    requires i < |msgs|
  {
    MessageOk(msgs[i]) && (i < |msgs| - 1 ==> Complete(msgs[i]))
  }

  /** Every message is well formed, and only the last may be incomplete. */
  ghost predicate MessagesOk(msgs: seq<NetMessage>) {
    forall i {:trigger MessageAt(msgs, i)} :: 0 <= i < |msgs| ==> MessageAt(msgs, i)
  }

  /** The number of complete messages. */
  function CompleteCount(msgs: seq<NetMessage>): nat {
    if msgs == [] then 0 else if Complete(msgs[|msgs| - 1]) then |msgs| else |msgs| - 1
  }

  lemma {:induction false} InitOk(msgs: seq<NetMessage>)
    requires MessagesOk(msgs) && msgs != []
    ensures var init := msgs[..|msgs| - 1];
      MessagesOk(init) && CompleteCount(init) == |init| && MessageOk(msgs[|msgs| - 1])
  {
    var init := msgs[..|msgs| - 1];
    forall i | 0 <= i < |init|
      ensures MessageAt(init, i)
    {
      assert MessageAt(msgs, i);
    }
    assert MessageAt(msgs, |msgs| - 1);
    assert init != [] ==> MessageAt(msgs, |init| - 1);
  }

  lemma {:induction false} ExtendOk(init: seq<NetMessage>, m: NetMessage)
    requires MessagesOk(init) && CompleteCount(init) == |init| && MessageOk(m)
    ensures MessagesOk(init + [m])
  {
    forall i | 0 <= i < |init + [m]|
      ensures MessageAt(init + [m], i)
    {
      assert i < |init| ==> MessageAt(init, i);
    }
  }

  /** All bytes absorbed by a queue of messages. */
  ghost function Stream(msgs: seq<NetMessage>): seq<byte>
    requires MessagesOk(msgs)
  {
    if msgs == [] then [] else
      InitOk(msgs);
      Stream(msgs[..|msgs| - 1]) + Absorbed(msgs[|msgs| - 1])
  }

  /** The messages before the one that takes the next bytes. */
  function Settled(msgs: seq<NetMessage>): seq<NetMessage> {
    msgs[..CompleteCount(msgs)]
  }

  /** The message that takes the next bytes: the incomplete last one, or a new one. */
  function Current(magic: seq<byte>, msgs: seq<NetMessage>): NetMessage {
    if CompleteCount(msgs) == |msgs| then NewMessage(magic) else msgs[|msgs| - 1]
  }

  lemma {:induction false} CurrentOk(magic: seq<byte>, msgs: seq<NetMessage>)
    requires MessagesOk(msgs)
    ensures var done, m := Settled(msgs), Current(magic, msgs);
      && MessagesOk(done) && CompleteCount(done) == |done| && MessageOk(m) && !Complete(m)
      && Stream(done) + Absorbed(m) == Stream(msgs)
  {
    if CompleteCount(msgs) == |msgs| {
      assert msgs[..|msgs|] == msgs;
      assert Absorbed(NewMessage(magic)) == [];
    } else {
      InitOk(msgs);
    }
  }

  /** One round of the loop in ReceiveMsgBytes on the current message; None where it gives up on the peer. */
  function Absorb(m: NetMessage, pch: seq<byte>): (r: Option<(NetMessage, nat)>)
    requires MessageOk(m)
  {
    if !m.inData then
      var (m1, handled) := HeaderRead(m, pch);
      if handled >= 0 && m1.inData && m1.hdr.size > MAX_PROTOCOL_MESSAGE_LENGTH then None
      else if handled < 0 then None
      else Some((m1, handled))
    else
      Some(DataRead(m, pch))
  }

  /** Every round consumes at least one byte, and loses none. */
  lemma {:induction false} AbsorbKeeps(m: NetMessage, pch: seq<byte>)
    requires MessageOk(m) && !Complete(m) && pch != []
    ensures var r := Absorb(m, pch);
      r.Some? ==>
        var (m1, handled) := r.value;
        0 < handled <= |pch| && MessageOk(m1) && Absorbed(m1) == Absorbed(m) + pch[..handled]
  {
    if m.inData {
      DataAbsorbs(m, pch);
    } else {
      HeaderAbsorbs(m, pch);
    }
  }

  /** ReceiveMsgBytes: the queue of messages after the bytes `pch`; None where it returns false. */
  ghost function Receive(magic: seq<byte>, msgs: seq<NetMessage>, pch: seq<byte>): Option<seq<NetMessage>>
    requires MessagesOk(msgs)
    decreases |pch|
  {
    if pch == [] then Some(msgs) else
      CurrentOk(magic, msgs);
      var m := Current(magic, msgs);
      AbsorbKeeps(m, pch);
      match Absorb(m, pch)
      case None => None
      case Some((m1, handled)) =>
        ExtendOk(Settled(msgs), m1);
        Receive(magic, Settled(msgs) + [m1], pch[handled..])
  }

  lemma {:induction false} StreamExtend(init: seq<NetMessage>, m: NetMessage)
    requires MessagesOk(init) && MessagesOk(init + [m])
    ensures MessageOk(m) && Stream(init + [m]) == Stream(init) + Absorbed(m)
  {
    InitOk(init + [m]);
    assert (init + [m])[..|init|] == init;
  }

  /** One round: the queue stays well formed and absorbs the bytes handled. */
  lemma {:induction false} RoundKeeps(
    magic: seq<byte>, msgs: seq<NetMessage>, pch: seq<byte>, m1: NetMessage, handled: nat)
    requires MessagesOk(msgs) && pch != [] && MessageOk(Current(magic, msgs))
    requires Absorb(Current(magic, msgs), pch) == Some((m1, handled))
    ensures 0 < handled <= |pch| && MessagesOk(Settled(msgs) + [m1])
    ensures Stream(Settled(msgs) + [m1]) == Stream(msgs) + pch[..handled]
  {
    CurrentOk(magic, msgs);
    AbsorbKeeps(Current(magic, msgs), pch);
    ExtendOk(Settled(msgs), m1);
    StreamExtend(Settled(msgs), m1);
    Assoc(Stream(Settled(msgs)), Absorbed(Current(magic, msgs)), pch[..handled]);
  }

  /** Receiving loses, adds and reorders no byte. */
  lemma {:induction false} ReceiveLossless(magic: seq<byte>, msgs: seq<NetMessage>, pch: seq<byte>)
    requires MessagesOk(msgs)
    ensures var r := Receive(magic, msgs, pch);
      r.Some? ==> MessagesOk(r.value) && Stream(r.value) == Stream(msgs) + pch
    decreases |pch|
  {
    if pch != [] {
      CurrentOk(magic, msgs);
      var r := Absorb(Current(magic, msgs), pch);
      if r.Some? {
        var (m1, handled) := r.value;
        RoundKeeps(magic, msgs, pch, m1, handled);
        ReceiveLossless(magic, Settled(msgs) + [m1], pch[handled..]);
        SplitAt(pch, handled);
        Assoc(Stream(msgs), pch[..handled], pch[handled..]);
      }
    }
  }

  // ----- the stream determines the messages -----

  predicate Sendable(pushed: seq<Message>) {
    forall i | 0 <= i < |pushed| :: |pushed[i].data| <= MAX_PROTOCOL_MESSAGE_LENGTH
  }

  function Frames(net: Network, pushed: seq<Message>): seq<byte>
    requires ValidNetwork(net) && Sendable(pushed)
  {
    if pushed == [] then [] else Frame(net, pushed[0]) + Frames(net, pushed[1..])
  }

  /** `m` is the pushed message `p`: its header, with its command, size and checksum, and its data. */
  predicate Matches(net: Network, m: NetMessage, p: Message)
    requires ValidNetwork(net) && |p.data| <= MAX_PROTOCOL_MESSAGE_LENGTH
  {
    m.hdr == HeaderOf(net, p) && m.vRecv == p.data
  }

  /** What arrives: the payload with its size and checksum, and the command if it fits. */
  lemma {:induction false} MatchesMeans(net: Network, m: NetMessage, p: Message)
    requires ValidNetwork(net) && |p.data| <= MAX_PROTOCOL_MESSAGE_LENGTH && Matches(net, m, p)
    ensures m.vRecv == p.data && m.hdr.start == net.magic && m.hdr.size == |p.data|
    ensures m.hdr.checksum == net.checksum(p.data)
    ensures |p.command| <= 12 && 0 !in p.command ==> CString(m.hdr.command) == p.command
  {
    CommandRoundTrip(p.command);
  }

  /** Two streams that start with headers start with the same header. */
  lemma {:induction false} SameHeader(h: Header, x: seq<byte>, h': Header, y: seq<byte>)
    requires ValidHeader(h) && ValidHeader(h') && HeaderBytes(h) + x == HeaderBytes(h') + y
    ensures h == h' && x == y
  {
    Cancel(HeaderBytes(h), x, HeaderBytes(h'), y);
    HeaderRoundTrip(h, HeaderBytes(h));
    HeaderRoundTrip(h', HeaderBytes(h'));
  }

  /** A stream starting with a complete message and with a frame starts with the same message. */
  lemma {:induction false} FirstMatches(net: Network, m: NetMessage, tail: seq<byte>, pushed: seq<Message>)
    requires ValidNetwork(net) && Sendable(pushed) && MessageOk(m) && Complete(m)
    requires Absorbed(m) + tail == Frames(net, pushed)
    ensures pushed != [] && Matches(net, m, pushed[0]) && tail == Frames(net, pushed[1..])
  {
    assert |Absorbed(m) + tail| > 0;
    var p, rest := pushed[0], Frames(net, pushed[1..]);
    TakeAll(m.vRecv);
    Assoc(HeaderBytes(m.hdr), m.vRecv, tail);
    Assoc(HeaderBytes(HeaderOf(net, p)), p.data, rest);
    SameHeader(m.hdr, m.vRecv + tail, HeaderOf(net, p), p.data + rest);
    Cancel(m.vRecv, tail, p.data, rest);
  }

  ghost predicate AllMatch(net: Network, msgs: seq<NetMessage>, pushed: seq<Message>)
    requires ValidNetwork(net) && Sendable(pushed)
  {
    && |msgs| <= |pushed|
    && forall i {:trigger MatchAt(net, msgs, pushed, i)} :: 0 <= i < |msgs| ==> MatchAt(net, msgs, pushed, i)
  }

  predicate MatchAt(net: Network, msgs: seq<NetMessage>, pushed: seq<Message>, i: nat)
    requires ValidNetwork(net) && Sendable(pushed) && i < |msgs| <= |pushed|
  {
    Matches(net, msgs[i], pushed[i])
  }

  lemma {:induction false} MatchOneMore(net: Network, msgs: seq<NetMessage>, pushed: seq<Message>)
    requires ValidNetwork(net) && Sendable(pushed) && 0 < |msgs| <= |pushed|
    requires AllMatch(net, msgs[..|msgs| - 1], pushed) && MatchAt(net, msgs, pushed, |msgs| - 1)
    ensures AllMatch(net, msgs, pushed)
  {
    forall i | 0 <= i < |msgs|
      ensures MatchAt(net, msgs, pushed, i)
    {
      assert i < |msgs| - 1 ==> MatchAt(net, msgs[..|msgs| - 1], pushed, i);
    }
  }

  /** Complete messages that account for the start of the stream are the first messages pushed. */
  lemma {:induction false} CompletePrefix(net: Network, done: seq<NetMessage>, tail: seq<byte>, pushed: seq<Message>)
    requires ValidNetwork(net) && Sendable(pushed) && MessagesOk(done) && CompleteCount(done) == |done|
    requires Stream(done) + tail == Frames(net, pushed)
    ensures AllMatch(net, done, pushed) && tail == Frames(net, pushed[|done|..])
  {
    if done == [] {
      EmptyAppend(tail);
      EmptyAppend(pushed);
    } else {
      var n := |done| - 1;
      InitOk(done);
      Assoc(Stream(done[..n]), Absorbed(done[n]), tail);
      CompletePrefix(net, done[..n], Absorbed(done[n]) + tail, pushed);
      FirstMatches(net, done[n], tail, pushed[n..]);
      DropDrop(pushed, n, 1);
      MatchOneMore(net, done, pushed);
    }
  }

  /** A header that arrives whole is that of the next message pushed, so it is never refused. */
  lemma {:induction false} NextHeader(
    net: Network, h: Header, partial: seq<byte>, tail: seq<byte>, pushed: seq<Message>)
    requires ValidNetwork(net) && Sendable(pushed) && ValidHeader(h)
    requires partial + tail == Frames(net, pushed) && |partial| < HEADER_SIZE <= |partial| + |tail|
    requires HeaderBytes(h) == partial + tail[..HEADER_SIZE - |partial|]
    ensures h.size <= MAX_PROTOCOL_MESSAGE_LENGTH
  {
    var k := HEADER_SIZE - |partial|;
    assert |Frames(net, pushed)| > 0;
    SplitAt(tail, k);
    Assoc(partial, tail[..k], tail[k..]);
    var p, rest := pushed[0], Frames(net, pushed[1..]);
    Assoc(HeaderBytes(HeaderOf(net, p)), p.data, rest);
    SameHeader(h, tail[k..], HeaderOf(net, p), p.data + rest);
  }

  /** Of a stream of frames no round refuses the next bytes. */
  lemma {:induction false} AbsorbSucceeds(
    net: Network, msgs: seq<NetMessage>, pch: seq<byte>, rest: seq<byte>, pushed: seq<Message>)
    requires ValidNetwork(net) && Sendable(pushed) && MessagesOk(msgs) && pch != []
    requires Stream(msgs) + pch + rest == Frames(net, pushed) && MessageOk(Current(net.magic, msgs))
    ensures Absorb(Current(net.magic, msgs), pch).Some?
  {
    CurrentOk(net.magic, msgs);
    var done, m := Settled(msgs), Current(net.magic, msgs);
    if !m.inData {
      HeaderAbsorbs(m, pch);
      var (m1, handled) := HeaderRead(m, pch);
      if handled < 0 || m1.inData {
        Assoc(Stream(msgs), pch, rest);
        Assoc(Stream(done), Absorbed(m), pch + rest);
        CompletePrefix(net, done, Absorbed(m) + (pch + rest), pushed);
        TakeOfAppend(pch, rest, HEADER_SIZE - m.nHdrPos);
        NextHeader(net, m1.hdr, Absorbed(m), pch + rest, pushed[|done|..]);
      }
    }
  }

  lemma {:induction false} ReceiveSucceeds(
    net: Network, msgs: seq<NetMessage>, pch: seq<byte>, rest: seq<byte>, pushed: seq<Message>)
    requires ValidNetwork(net) && Sendable(pushed) && MessagesOk(msgs)
    requires Stream(msgs) + pch + rest == Frames(net, pushed)
    ensures Receive(net.magic, msgs, pch).Some?
    decreases |pch|
  {
    if pch != [] {
      CurrentOk(net.magic, msgs);
      AbsorbSucceeds(net, msgs, pch, rest, pushed);
      var (m1, handled) := Absorb(Current(net.magic, msgs), pch).value;
      RoundKeeps(net.magic, msgs, pch, m1, handled);
      SplitAt(pch, handled);
      Assoc(Stream(msgs), pch[..handled], pch[handled..]);
      ReceiveSucceeds(net, Settled(msgs) + [m1], pch[handled..], rest, pushed);
    }
  }

  /** A peer takes a frame if and only if its payload is within the limit. */
  lemma {:induction false} FrameExact(net: Network, m: Message)
    requires ValidNetwork(net) && |m.data| < 0x1_0000_0000
    ensures Receive(net.magic, [], Frame(net, m)).Some? <==> |m.data| <= 4000000
  {
    var f := Frame(net, m);
    if |m.data| <= MAX_PROTOCOL_MESSAGE_LENGTH {
      assert [m][1..] == [];
      assert Frames(net, [m]) == f + Frames(net, []);
      EmptyAppend(f);
      ReceiveSucceeds(net, [], f, [], [m]);
    } else {
      CurrentOk(net.magic, []);
      var blank := NewMessage(net.magic);
      HeaderAbsorbs(blank, f);
      assert f[..HEADER_SIZE] == HeaderBytes(HeaderOf(net, m));
      HeaderRoundTrip(HeaderOf(net, m), f[..HEADER_SIZE]);
    }
  }

  // ----- sending -----

  function Flat(queue: seq<seq<byte>>): seq<byte> {
    if queue == [] then [] else queue[0] + Flat(queue[1..])
  }

  lemma {:induction false} FlatConcat(a: seq<seq<byte>>, b: seq<seq<byte>>)
    ensures Flat(a + b) == Flat(a) + Flat(b)
  {
    if a == [] {
      EmptyAppend(b);
      EmptyAppend(Flat(b));
    } else {
      assert (a + b)[1..] == a[1..] + b;
      FlatConcat(a[1..], b);
      Assoc(a[0], Flat(a[1..]), Flat(b));
    }
  }

  /** vSendMsg, nSendOffset and nSendSize of a node. */
  datatype Sender = Sender(queue: seq<seq<byte>>, offset: nat, size: int)

  /** nSendSize is the total size of the queued buffers, and nSendOffset lies inside the first. */
  ghost predicate SenderOk(s: Sender) {
    && (forall i :: 0 <= i < |s.queue| ==> |s.queue[i]| > 0)
    && s.size == |Flat(s.queue)|
    && (if s.queue == [] then s.offset == 0 else s.offset < |s.queue[0]|)
  }

  /** The bytes still to be sent. */
  function Unsent(s: Sender): seq<byte>
    requires s.offset <= |Flat(s.queue)|
  {
    Flat(s.queue)[s.offset..]
  }

  /**
   * SocketSendData: the sender afterwards and the bytes handed to the socket. `sends` are the results of the
   * successive calls of send, of which none accepts more than it is given; where they end, the socket is gone.
   */
  function Send(s: Sender, sends: seq<int>): (Sender, seq<byte>)
    requires s.queue != [] ==> s.offset <= |s.queue[0]|
    decreases |s.queue|
  {
    if s.queue == [] || sends == [] || sends[0] <= 0 then (s, []) else
      var data := s.queue[0];
      var nBytes := Min(sends[0], |data| - s.offset);
      if s.offset + nBytes == |data| then
        var (t, sent) := Send(Sender(s.queue[1..], 0, s.size - |data|), sends[1..]);
        (t, data[s.offset..] + sent)
      else
        (s.(offset := s.offset + nBytes), data[s.offset..s.offset + nBytes])
  }

  lemma {:induction false} FirstDone(s: Sender)
    requires SenderOk(s) && s.queue != []
    ensures SenderOk(Sender(s.queue[1..], 0, s.size - |s.queue[0]|))
    ensures s.queue[0][s.offset..] + Flat(s.queue[1..]) == Unsent(s)
  {
  }

  lemma {:induction false} PartDone(data: seq<byte>, rest: seq<byte>, offset: nat, n: nat)
    requires offset + n <= |data|
    ensures data[offset..offset + n] + (data + rest)[offset + n..] == (data + rest)[offset..]
  {
  }

  /** Whatever the socket accepts, the bytes sent and the bytes unsent stay the same stream. */
  lemma {:induction false} SendKeeps(s: Sender, sends: seq<int>)
    requires SenderOk(s)
    ensures var (t, sent) := Send(s, sends); SenderOk(t) && sent + Unsent(t) == Unsent(s)
    decreases |s.queue|
  {
    if s.queue == [] || sends == [] || sends[0] <= 0 {
      EmptyAppend(Unsent(s));
    } else {
      var data := s.queue[0];
      var nBytes := Min(sends[0], |data| - s.offset);
      if s.offset + nBytes == |data| {
        FirstDone(s);
        var next := Sender(s.queue[1..], 0, s.size - |data|);
        SendKeeps(next, sends[1..]);
        var (t, sent) := Send(next, sends[1..]);
        EmptyAppend(Flat(next.queue));
        Assoc(data[s.offset..], sent, Unsent(t));
      } else {
        PartDone(data, Flat(s.queue[1..]), s.offset, nBytes);
      }
    }
  }

  /** A socket that takes some bytes is given as many of the first buffer, at least. */
  lemma {:induction false} SendProgress(s: Sender, sends: seq<int>)
    requires SenderOk(s) && s.queue != [] && sends != [] && sends[0] > 0
    ensures |Send(s, sends).1| >= Min(sends[0], |s.queue[0]| - s.offset) > 0
  {
  }

  /** The socket takes each of `queue` whole. */
  predicate Willing(queue: seq<seq<byte>>, sends: seq<int>) {
    |sends| >= |queue| && forall i :: 0 <= i < |queue| ==> sends[i] >= |queue[i]|
  }

  /** A socket that takes every buffer whole empties the queue. */
  lemma {:induction false} SendsAll(s: Sender, sends: seq<int>)
    requires SenderOk(s) && Willing(s.queue, sends)
    ensures Send(s, sends) == (Sender([], 0, 0), Unsent(s))
    decreases |s.queue|
  {
    if s.queue != [] {
      assert sends[0] >= |s.queue[0]|;
      FirstDone(s);
      var next := Sender(s.queue[1..], 0, s.size - |s.queue[0]|);
      SendsAll(next, sends[1..]);
      EmptyAppend(Flat(next.queue));
    }
  }

  /** The buffers PushMessage queues for a message. */
  function Buffers(net: Network, m: Message): seq<seq<byte>>
    requires ValidNetwork(net) && |m.data| < 0x1_0000_0000
  {
    [HeaderBytes(HeaderOf(net, m))] + if |m.data| > 0 then [m.data] else []
  }

  function Queued(net: Network, s: Sender, m: Message): Sender
    requires ValidNetwork(net) && |m.data| < 0x1_0000_0000
  {
    Sender(s.queue + Buffers(net, m), s.offset, s.size + |m.data| + HEADER_SIZE)
  }

  lemma {:induction false} FlatBuffers(net: Network, m: Message)
    requires ValidNetwork(net) && |m.data| < 0x1_0000_0000
    ensures Flat(Buffers(net, m)) == Frame(net, m)
  {
    var header := HeaderBytes(HeaderOf(net, m));
    EmptyAppend(m.data);
    EmptyAppend(header);
    if |m.data| > 0 {
      assert Buffers(net, m)[1..] == [m.data];
      assert [m.data][1..] == [];
      assert Flat([m.data]) == m.data + Flat([]);
    } else {
      assert Buffers(net, m)[1..] == [];
    }
  }

  lemma {:induction false} QueuedKeeps(net: Network, s: Sender, m: Message)
    requires ValidNetwork(net) && |m.data| < 0x1_0000_0000 && SenderOk(s)
    ensures SenderOk(Queued(net, s, m)) && Unsent(Queued(net, s, m)) == Unsent(s) + Frame(net, m)
  {
    FlatConcat(s.queue, Buffers(net, m));
    FlatBuffers(net, m);
    assert (Flat(s.queue) + Frame(net, m))[s.offset..] == Flat(s.queue)[s.offset..] + Frame(net, m);
  }

  // ----- runs -----

  /** Two nodes: the messages pushed so far, the bytes between them, and the messages received. */
  datatype State = State(pushed: seq<Message>, sender: Sender, wire: seq<byte>, vProcessMsg: seq<NetMessage>,
    vRecvMsg: seq<NetMessage>)

  datatype Op =
    | OpPush(m: Message, sends: seq<int>)
    | OpSend(sends: seq<int>)
    | OpReceive(n: nat)

  /** All bytes pushed are absorbed, on the wire or unsent, in this order. */
  ghost predicate ChannelOk(net: Network, s: State)
    requires ValidNetwork(net)
  {
    && Sendable(s.pushed) && SenderOk(s.sender)
    && MessagesOk(s.vProcessMsg) && CompleteCount(s.vProcessMsg) == |s.vProcessMsg|
    && MessagesOk(s.vRecvMsg) && CompleteCount(s.vRecvMsg) == 0
    && Stream(s.vProcessMsg) + (Stream(s.vRecvMsg) + (s.wire + Unsent(s.sender))) == Frames(net, s.pushed)
  }

  predicate Permitted(op: Op) {
    op.OpPush? ==> |op.m.data| <= MAX_PROTOCOL_MESSAGE_LENGTH
  }

  /** PushMessage, with its optimistic attempt to send when the queue was empty. */
  ghost function Push(net: Network, s: State, m: Message, sends: seq<int>): State
    requires ValidNetwork(net) && |m.data| <= MAX_PROTOCOL_MESSAGE_LENGTH && SenderOk(s.sender)
  {
    QueuedKeeps(net, s.sender, m);
    var q := s.(pushed := s.pushed + [m], sender := Queued(net, s.sender, m));
    if s.sender.queue == [] then SendOut(q, sends) else q
  }

  ghost function SendOut(s: State, sends: seq<int>): State
    requires SenderOk(s.sender)
  {
    var (sender, sent) := Send(s.sender, sends);
    s.(sender := sender, wire := s.wire + sent)
  }

  /** The socket hands over `n` bytes of the wire; complete messages move on to the processing queue. */
  ghost function Arrive(net: Network, s: State, n: nat): Option<State>
    requires MessagesOk(s.vRecvMsg)
  {
    var k := Min(n, |s.wire|);
    match Receive(net.magic, s.vRecvMsg, s.wire[..k])
    case None => None
    case Some(msgs) =>
      Some(s.(wire := s.wire[k..], vProcessMsg := s.vProcessMsg + Settled(msgs),
        vRecvMsg := msgs[CompleteCount(msgs)..]))
  }

  /** The state after `op`; None if the receiver disconnects. */
  ghost function Apply(net: Network, s: State, op: Op): Option<State>
    requires ValidNetwork(net) && ChannelOk(net, s) && Permitted(op)
  {
    match op
    case OpPush(m, sends) => Some(Push(net, s, m, sends))
    case OpSend(sends) => Some(SendOut(s, sends))
    case OpReceive(n) => Arrive(net, s, n)
  }

  lemma {:induction false} SendOutKeeps(net: Network, s: State, sends: seq<int>)
    requires ValidNetwork(net) && ChannelOk(net, s)
    ensures ChannelOk(net, SendOut(s, sends))
  {
    SendKeeps(s.sender, sends);
    var (t, sent) := Send(s.sender, sends);
    Assoc(s.wire, sent, Unsent(t));
  }

  lemma {:induction false} FramesAppend(net: Network, pushed: seq<Message>, m: Message)
    requires ValidNetwork(net) && Sendable(pushed) && |m.data| <= MAX_PROTOCOL_MESSAGE_LENGTH
    ensures Sendable(pushed + [m]) && Frames(net, pushed + [m]) == Frames(net, pushed) + Frame(net, m)
  {
    if pushed == [] {
      assert [m][1..] == [];
      EmptyAppend([m]);
      EmptyAppend(Frame(net, m));
    } else {
      assert (pushed + [m])[1..] == pushed[1..] + [m];
      FramesAppend(net, pushed[1..], m);
      Assoc(Frame(net, pushed[0]), Frames(net, pushed[1..]), Frame(net, m));
    }
  }

  lemma {:induction false} PushKeeps(net: Network, s: State, m: Message, sends: seq<int>)
    requires ValidNetwork(net) && ChannelOk(net, s) && |m.data| <= MAX_PROTOCOL_MESSAGE_LENGTH
    ensures ChannelOk(net, Push(net, s, m, sends))
  {
    var q := s.(pushed := s.pushed + [m], sender := Queued(net, s.sender, m));
    QueuedKeeps(net, s.sender, m);
    FramesAppend(net, s.pushed, m);
    var a, b, u, f := Stream(s.vProcessMsg), Stream(s.vRecvMsg), Unsent(s.sender), Frame(net, m);
    Assoc(s.wire, u, f);
    Assoc(b, s.wire + u, f);
    Assoc(a, b + (s.wire + u), f);
    SendOutKeeps(net, q, sends);
  }

  lemma {:induction false} StreamConcat(a: seq<NetMessage>, b: seq<NetMessage>)
    requires MessagesOk(a) && CompleteCount(a) == |a| && MessagesOk(b) && CompleteCount(b) == |b|
    ensures MessagesOk(a + b) && CompleteCount(a + b) == |a + b| && Stream(a + b) == Stream(a) + Stream(b)
  {
    if b == [] {
      EmptyAppend(a);
      EmptyAppend(Stream(a));
    } else {
      var n := |b| - 1;
      InitOk(b);
      StreamConcat(a, b[..n]);
      AppendTake(a, b, n);
      TakeAll(b);
      ExtendOk(a + b[..n], b[n]);
      StreamExtend(a + b[..n], b[n]);
      Assoc(Stream(a), Stream(b[..n]), Absorbed(b[n]));
    }
  }

  lemma {:induction false} SettledSplit(msgs: seq<NetMessage>)
    requires MessagesOk(msgs)
    ensures var done, rest := Settled(msgs), msgs[CompleteCount(msgs)..];
      && MessagesOk(done) && CompleteCount(done) == |done| && MessagesOk(rest) && CompleteCount(rest) == 0
      && Stream(msgs) == Stream(done) + Stream(rest)
  {
    var c := CompleteCount(msgs);
    if c == |msgs| {
      TakeAll(msgs);
      assert msgs[c..] == [];
      EmptyAppend(Stream(msgs));
    } else {
      InitOk(msgs);
      assert msgs[c..] == [msgs[c]];
      OneMessage(msgs[c]);
    }
  }

  lemma {:induction false} OneMessage(m: NetMessage)
    requires MessageOk(m)
    ensures MessagesOk([m]) && Stream([m]) == Absorbed(m)
  {
    ExtendOk([], m);
    StreamExtend([], m);
    EmptyAppend([m]);
    EmptyAppend(Absorbed(m));
  }

  lemma {:induction false} ArriveKeeps(net: Network, s: State, n: nat)
    requires ValidNetwork(net) && ChannelOk(net, s)
    ensures Arrive(net, s, n).Some? && ChannelOk(net, Arrive(net, s, n).value)
  {
    var k := Min(n, |s.wire|);
    var pch, wire, u := s.wire[..k], s.wire[k..], Unsent(s.sender);
    var a, b := Stream(s.vProcessMsg), Stream(s.vRecvMsg);
    SplitAt(s.wire, k);
    Assoc(pch, wire, u);
    Assoc(b, pch, wire + u);
    CompletePrefix(net, s.vProcessMsg, b + pch + (wire + u), s.pushed);
    ReceiveSucceeds(net, s.vRecvMsg, pch, wire + u, s.pushed[|s.vProcessMsg|..]);
    ReceiveLossless(net.magic, s.vRecvMsg, pch);
    var msgs := Receive(net.magic, s.vRecvMsg, pch).value;
    SettledSplit(msgs);
    var done, rest := Stream(Settled(msgs)), Stream(msgs[CompleteCount(msgs)..]);
    StreamConcat(s.vProcessMsg, Settled(msgs));
    Assoc(done, rest, wire + u);
    Assoc(a, done, rest + (wire + u));
  }

  /** No operation breaks the stream, and the receiver never disconnects. */
  lemma {:induction false} ApplyKeeps(net: Network, s: State, op: Op)
    requires ValidNetwork(net) && ChannelOk(net, s) && Permitted(op)
    ensures Apply(net, s, op).Some? && ChannelOk(net, Apply(net, s, op).value)
  {
    match op
    case OpPush(m, sends) => PushKeeps(net, s, m, sends);
    case OpSend(sends) => SendOutKeeps(net, s, sends);
    case OpReceive(n) => ArriveKeeps(net, s, n);
  }

  /** An incomplete message has absorbed less than the frame of the next message. */
  lemma {:induction false} PartialShort(net: Network, m: NetMessage, rest: seq<byte>, pushed: seq<Message>)
    requires ValidNetwork(net) && Sendable(pushed) && MessageOk(m) && !Complete(m) && pushed != []
    requires Absorbed(m) + rest == Frames(net, pushed)
    ensures |Absorbed(m)| < |Frame(net, pushed[0])|
  {
    if m.inData {
      var p := pushed[0];
      Assoc(HeaderBytes(m.hdr), m.vRecv[..m.nDataPos], rest);
      Assoc(HeaderBytes(HeaderOf(net, p)), p.data, Frames(net, pushed[1..]));
      SameHeader(m.hdr, m.vRecv[..m.nDataPos] + rest, HeaderOf(net, p), p.data + Frames(net, pushed[1..]));
    }
  }

  lemma {:induction false} OnlyPartial(net: Network, msgs: seq<NetMessage>, rest: seq<byte>, pushed: seq<Message>)
    requires ValidNetwork(net) && Sendable(pushed) && MessagesOk(msgs) && CompleteCount(msgs) == 0
    requires Stream(msgs) + rest == Frames(net, pushed)
    ensures pushed != [] ==> |Stream(msgs)| < |Frame(net, pushed[0])| <= |Frames(net, pushed)|
  {
    if msgs != [] && pushed != [] {
      InitOk(msgs);
      EmptyAppend(Absorbed(msgs[0]));
      PartialShort(net, msgs[0], rest, pushed);
    }
  }

  /**
   * In every such state the processed messages are the first messages pushed, in order and unaltered;
   * the next one lacks some of its bytes; and once nothing is queued or on the wire they are all of them.
   */
  lemma {:induction false} Delivered(net: Network, s: State)
    requires ValidNetwork(net) && ChannelOk(net, s)
    ensures AllMatch(net, s.vProcessMsg, s.pushed)
    ensures |s.vProcessMsg| < |s.pushed| ==> |Stream(s.vRecvMsg)| < |Frame(net, s.pushed[|s.vProcessMsg|])|
    ensures s.sender.queue == [] && s.wire == [] ==> |s.vProcessMsg| == |s.pushed|
  {
    var rest := s.wire + Unsent(s.sender);
    CompletePrefix(net, s.vProcessMsg, Stream(s.vRecvMsg) + rest, s.pushed);
    OnlyPartial(net, s.vRecvMsg, rest, s.pushed[|s.vProcessMsg|..]);
  }

  /** From every such state, a socket that takes all and a receiver that reads all deliver everything pushed. */
  lemma {:induction false} Drained(net: Network, s: State, sends: seq<int>, n: nat)
    requires ValidNetwork(net) && ChannelOk(net, s) && Willing(s.sender.queue, sends)
    requires n == |s.wire + Unsent(s.sender)|
    ensures ChannelOk(net, SendOut(s, sends)) && Arrive(net, SendOut(s, sends), n).Some?
    ensures var t := Arrive(net, SendOut(s, sends), n).value;
      t.pushed == s.pushed && |t.vProcessMsg| == |s.pushed| && AllMatch(net, t.vProcessMsg, s.pushed)
  {
    SendOutKeeps(net, s, sends);
    SendsAll(s.sender, sends);
    ArriveKeeps(net, SendOut(s, sends), n);
    Delivered(net, Arrive(net, SendOut(s, sends), n).value);
  }

  /** A message pushed onto an empty queue is handed to the socket at once; behind others it waits. */
  lemma {:induction false} PushedAtOnce(net: Network, s: State, m: Message, sends: seq<int>)
    requires ValidNetwork(net) && ChannelOk(net, s) && |m.data| <= MAX_PROTOCOL_MESSAGE_LENGTH
    ensures var t := Push(net, s, m, sends);
      && t.pushed == s.pushed + [m]
      && (s.sender.queue == [] && Willing(Buffers(net, m), sends) ==>
           t.wire == s.wire + Frame(net, m) && t.sender.queue == [])
      && (s.sender.queue != [] ==>
           t.wire == s.wire && SenderOk(t.sender) && Unsent(t.sender) == Unsent(s.sender) + Frame(net, m))
  {
    QueuedKeeps(net, s.sender, m);
    if s.sender.queue == [] {
      EmptyAppend(Buffers(net, m));
      EmptyAppend(Frame(net, m));
      if Willing(Buffers(net, m), sends) {
        SendsAll(Queued(net, s.sender, m), sends);
      }
    }
  }

  /** The messages that a run pushes. */
  function PushedBy(ops: seq<Op>): seq<Message> {
    if ops == [] then [] else
      var last := ops[|ops| - 1];
      PushedBy(ops[..|ops| - 1]) + if last.OpPush? then [last.m] else []
  }

  ghost predicate IsRun(net: Network, ops: seq<Op>, states: seq<State>)
    requires ValidNetwork(net)
  {
    && |states| == |ops| + 1
    && forall i {:trigger RunStep(net, ops, states, i)} :: 0 <= i < |ops| ==> RunStep(net, ops, states, i)
  }

  ghost predicate RunStep(net: Network, ops: seq<Op>, states: seq<State>, i: nat)
    requires ValidNetwork(net) && i < |ops| && |states| == |ops| + 1
  {
    && Permitted(ops[i])
    && (ChannelOk(net, states[i]) && Apply(net, states[i], ops[i]).Some? ==>
         states[i + 1] == Apply(net, states[i], ops[i]).value)
  }

  const Idle := State([], Sender([], 0, 0), [], [], [])

  /** Under every schedule of pushes, partial sends and chunks received, exactly the pushed messages arrive. */
  lemma {:induction false} EveryRunDelivers(net: Network, ops: seq<Op>, states: seq<State>, n: nat)
    requires ValidNetwork(net) && IsRun(net, ops, states) && states[0] == Idle && n <= |ops|
    ensures ChannelOk(net, states[n]) && AllMatch(net, states[n].vProcessMsg, states[n].pushed)
    ensures n < |ops| ==> Permitted(ops[n]) && Apply(net, states[n], ops[n]).Some?
    ensures states[n].sender.queue == [] && states[n].wire == [] ==> |states[n].vProcessMsg| == |states[n].pushed|
    ensures states[n].pushed == PushedBy(ops[..n])
  {
    if n > 0 {
      EveryRunDelivers(net, ops, states, n - 1);
      assert RunStep(net, ops, states, n - 1);
      ApplyKeeps(net, states[n - 1], ops[n - 1]);
      assert ops[..n][..n - 1] == ops[..n - 1];
      EmptyAppend(PushedBy(ops[..n - 1]));
    }
    Delivered(net, states[n]);
    if n < |ops| {
      assert RunStep(net, ops, states, n);
      ApplyKeeps(net, states[n], ops[n]);
    }
  }
}
