/** TDS packets, and the specification of what messages a client byte stream carries. */
module Packets {
  import opened ByteCodec

  const PACKET_HEADER_SIZE := 8

  datatype PacketType =
    | SqlBatch | FedAuthToken | PreLogin | TabularResult | Attention | Login7 | RpcRequest | TransactionManager

  function TypeCode(t: PacketType): byte {
    match t
    case SqlBatch => 0x01
    case FedAuthToken => 0x08
    case PreLogin => 0x12
    case TabularResult => 0x04
    case Attention => 0x06
    case Login7 => 0x10
    case RpcRequest => 0x03
    case TransactionManager => 0x0E
  }

  function TypeOf(b: byte): Option<PacketType> {
    if b == 0x01 then Some(SqlBatch)
    else if b == 0x08 then Some(FedAuthToken)
    else if b == 0x12 then Some(PreLogin)
    else if b == 0x04 then Some(TabularResult)
    else if b == 0x06 then Some(Attention)
    else if b == 0x10 then Some(Login7)
    else if b == 0x03 then Some(RpcRequest)
    else if b == 0x0E then Some(TransactionManager)
    else None
  }

  datatype Header = Header(ptype: PacketType, status: byte, length: u16, spid: u16, packetId: byte, window: byte)

  predicate IsEndOfMessage(status: byte) { status % 2 == 1 }

  predicate IsIgnore(status: byte) { status / 2 % 2 == 1 }

  /** `PacketHeader::parse`; the fields are big-endian. */
  function ParseHeader(buf: seq<byte>): Option<Header> {
    if |buf| < PACKET_HEADER_SIZE then None
    else
      match TypeOf(buf[0])
      case None => None
      case Some(t) => Some(Header(t, buf[1], BeU16(buf[2..4]), BeU16(buf[4..6]), buf[6], buf[7]))
  }

  function WriteHeader(h: Header): (s: seq<byte>)
    ensures |s| == PACKET_HEADER_SIZE
  {
    [TypeCode(h.ptype), h.status] + Be16(h.length) + Be16(h.spid) + [h.packetId, h.window]
  }

  lemma HeaderRoundTrip(h: Header, rest: seq<byte>)
    ensures ParseHeader(WriteHeader(h) + rest) == Some(h)
  {
    var buf := WriteHeader(h) + rest;
    assert buf[2..4] == Be16(h.length) && buf[4..6] == Be16(h.spid);
    U16Le16(h.length);
    U16Le16(h.spid);
  }

  /** `wrap_in_packet`: a single end-of-message packet, its length field truncated to 16 bits. */
  function WrapInPacket(t: PacketType, data: seq<byte>): seq<byte> {
    WriteHeader(Header(t, 0x01, (PACKET_HEADER_SIZE + |data|) % 0x1_0000, 0, 1, 0)) + data
  }

  /** The header of a wrapped response tells its real length exactly when it is below 64 KiB. */
  lemma WrappedLength(t: PacketType, data: seq<byte>)
    ensures ParseHeader(WrapInPacket(t, data)).Some?
    ensures var h := ParseHeader(WrapInPacket(t, data)).value;
            && h.ptype == t && IsEndOfMessage(h.status)
            && (h.length == |WrapInPacket(t, data)| <==> |WrapInPacket(t, data)| < 0x1_0000)
    ensures WrapInPacket(t, data)[PACKET_HEADER_SIZE..] == data
  {
    HeaderRoundTrip(Header(t, 0x01, (PACKET_HEADER_SIZE + |data|) % 0x1_0000, 0, 1, 0), data);
  }

  // Packets of a stream

  datatype Packet = Packet(header: Header, body: seq<byte>)

  ghost predicate PacketOk(p: Packet) { p.header.length == PACKET_HEADER_SIZE + |p.body| }

  function PacketBytes(p: Packet): seq<byte> { WriteHeader(p.header) + p.body }

  function StreamBytes(ps: seq<Packet>): seq<byte> {
    if ps == [] then [] else PacketBytes(ps[0]) + StreamBytes(ps[1..])
  }

  /** The complete packets at the front of a stream. */
  function PacketsOf(stream: seq<byte>): seq<Packet>
    decreases |stream|
  {
    match ParseHeader(stream)
    case None => []
    case Some(h) =>
      if h.length < PACKET_HEADER_SIZE || |stream| < h.length then []
      else [Packet(h, stream[PACKET_HEADER_SIZE..h.length])] + PacketsOf(stream[h.length..])
  }

  /** No header the framing loop gets to declares fewer bytes than the header itself has. */
  predicate WellFramed(stream: seq<byte>)
    decreases |stream|
  {
    match ParseHeader(stream)
    case None => true
    case Some(h) =>
      h.length >= PACKET_HEADER_SIZE && (|stream| < h.length || WellFramed(stream[h.length..]))
  }

  lemma HeaderPrefix(a: seq<byte>, b: seq<byte>)
    requires |a| >= PACKET_HEADER_SIZE
    ensures ParseHeader(a + b) == ParseHeader(a)
  {
    assert (a + b)[2..4] == a[2..4] && (a + b)[4..6] == a[4..6];
  }

  /** One packet at the front of a stream. */
  lemma PacketsOfFront(stream: seq<byte>, h: Header, more: seq<byte>)
    requires ParseHeader(stream) == Some(h) && PACKET_HEADER_SIZE <= h.length <= |stream|
    ensures PacketsOf(stream + more)
         == [Packet(h, stream[PACKET_HEADER_SIZE..h.length])] + PacketsOf(stream[h.length..] + more)
    ensures WellFramed(stream + more) <==> WellFramed(stream[h.length..] + more)
  {
    HeaderPrefix(stream, more);
    assert (stream + more)[PACKET_HEADER_SIZE..h.length] == stream[PACKET_HEADER_SIZE..h.length];
    assert (stream + more)[h.length..] == stream[h.length..] + more;
  }

  /** Nothing complete is at the front: more bytes are needed, or the header is not understood. */
  lemma PacketsOfNone(stream: seq<byte>)
    requires ParseHeader(stream).None? || |stream| < ParseHeader(stream).value.length
    ensures PacketsOf(stream) == []
  {
  }

  lemma {:induction false} WellFramedPrefix(a: seq<byte>, b: seq<byte>)
    requires WellFramed(a + b)
    ensures WellFramed(a)
    decreases |a|
  {
    if |a| >= PACKET_HEADER_SIZE {
      HeaderPrefix(a, b);
      match ParseHeader(a) {
        case None =>
        case Some(h) =>
          if PACKET_HEADER_SIZE <= h.length <= |a| {
            PacketsOfFront(a, h, b);
            WellFramedPrefix(a[h.length..], b);
          }
      }
    }
  }

  /** Parsing the bytes of a list of packets gives the list back. */
  lemma {:induction false} StreamRoundTrip(ps: seq<Packet>)
    requires forall i :: 0 <= i < |ps| ==> PacketOk(ps[i])
    ensures PacketsOf(StreamBytes(ps)) == ps && WellFramed(StreamBytes(ps))
    decreases |ps|
  {
    if ps != [] {
      var p, rest := ps[0], StreamBytes(ps[1..]);
      HeaderRoundTrip(p.header, p.body);
      var front := PacketBytes(p);
      PacketsOfFront(front, p.header, rest);
      assert front[PACKET_HEADER_SIZE..] == p.body && front[p.header.length..] == [];
      assert [] + rest == rest;
      StreamRoundTrip(ps[1..]);
    }
  }

  // Messages

  /** What reaches dispatch: a message with its body reassembled, or the withdrawal of a batch. */
  datatype Message = Message(ptype: PacketType, body: seq<byte>) | Withdrawn

  /** A batch whose last packet has not come, if any. */
  type Pending = Option<seq<byte>>

  function Got(pending: Pending): seq<byte> {
    match pending
    case None => []
    case Some(b) => b
  }

  function NextPending(pending: Pending, p: Packet): Pending {
    if p.header.ptype == SqlBatch && !IsIgnore(p.header.status) && !IsEndOfMessage(p.header.status)
    then Some(Got(pending) + p.body) else None
  }

  function MessageAt(pending: Pending, p: Packet): seq<Message> {
    if p.header.ptype != SqlBatch then [Message(p.header.ptype, p.body)]
    else if IsIgnore(p.header.status) then [Withdrawn]
    else if IsEndOfMessage(p.header.status) then [Message(SqlBatch, Got(pending) + p.body)]
    else []
  }

  function Messages(pending: Pending, ps: seq<Packet>): seq<Message>
    decreases |ps|
  {
    if ps == [] then [] else MessageAt(pending, ps[0]) + Messages(NextPending(pending, ps[0]), ps[1..])
  }

  function PendingAfter(pending: Pending, ps: seq<Packet>): Pending
    decreases |ps|
  {
    if ps == [] then pending else PendingAfter(NextPending(pending, ps[0]), ps[1..])
  }

  /** The messages of a whole stream. */
  function MessagesOf(stream: seq<byte>): seq<Message> { Messages(None, PacketsOf(stream)) }

  lemma {:induction false} MessagesAppend(pending: Pending, a: seq<Packet>, b: seq<Packet>)
    ensures Messages(pending, a + b) == Messages(pending, a) + Messages(PendingAfter(pending, a), b)
    ensures PendingAfter(pending, a + b) == PendingAfter(PendingAfter(pending, a), b)
    decreases |a|
  {
    hide MessageAt, NextPending;
    if a == [] {
      assert a + b == b;
    } else {
      assert (a + b)[1..] == a[1..] + b;
      var next := NextPending(pending, a[0]);
      MessagesAppend(next, a[1..], b);
      assert MessageAt(pending, a[0]) + (Messages(next, a[1..]) + Messages(PendingAfter(next, a[1..]), b))
          == MessageAt(pending, a[0]) + Messages(next, a[1..]) + Messages(PendingAfter(next, a[1..]), b);
    }
  }

  lemma {:induction false} PacketsPrefix(a: seq<byte>, b: seq<byte>)
    ensures PacketsOf(a) <= PacketsOf(a + b)
    decreases |a|
  {
    match ParseHeader(a) {
      case None =>
      case Some(h) =>
        if PACKET_HEADER_SIZE <= h.length <= |a| {
          PacketsOfFront(a, h, b);
          PacketsPrefix(a[h.length..], b);
        }
    }
  }

  /** More bytes never take a message back. */
  lemma MessagesPrefix(a: seq<byte>, b: seq<byte>)
    ensures MessagesOf(a) <= MessagesOf(a + b)
  {
    hide PacketsOf;
    PacketsPrefix(a, b);
    var before, after := PacketsOf(a), PacketsOf(a + b);
    assert after == before + after[|before|..];
    MessagesAppend(None, before, after[|before|..]);
  }

  // Batches in several packets

  ghost predicate IsFragment(p: Packet) {
    p.header.ptype == SqlBatch && !IsIgnore(p.header.status) && !IsEndOfMessage(p.header.status)
  }

  function Bodies(ps: seq<Packet>): seq<byte> {
    if ps == [] then [] else ps[0].body + Bodies(ps[1..])
  }

  lemma FragmentStep(pending: Pending, p: Packet)
    requires IsFragment(p)
    ensures MessageAt(pending, p) == [] && Got(NextPending(pending, p)) == Got(pending) + p.body
  {
  }

  lemma {:induction false} FragmentsAccumulate(pending: Pending, fragments: seq<Packet>)
    requires forall i :: 0 <= i < |fragments| ==> IsFragment(fragments[i])
    ensures Messages(pending, fragments) == []
    ensures Got(PendingAfter(pending, fragments)) == Got(pending) + Bodies(fragments)
    decreases |fragments|
  {
    hide MessageAt, NextPending, Got, IsFragment;
    if fragments != [] {
      FragmentStep(pending, fragments[0]);
      FragmentsAccumulate(NextPending(pending, fragments[0]), fragments[1..]);
      assert Got(pending) + fragments[0].body + Bodies(fragments[1..])
          == Got(pending) + (fragments[0].body + Bodies(fragments[1..]));
    }
  }

  /** However a batch body is divided into packets, it arrives as the one message a single packet
      would have carried, and what follows is not affected. */
  lemma BatchDivision(fragments: seq<Packet>, last: Packet, whole: Packet, after: seq<Packet>)
    requires forall i :: 0 <= i < |fragments| ==> IsFragment(fragments[i])
    requires last.header.ptype == SqlBatch && !IsIgnore(last.header.status) && IsEndOfMessage(last.header.status)
    requires whole.header.ptype == SqlBatch && !IsIgnore(whole.header.status) && IsEndOfMessage(whole.header.status)
    requires Bodies(fragments) + last.body == whole.body
    ensures Messages(None, fragments + [last] + after) == Messages(None, [whole] + after)
         == [Message(SqlBatch, whole.body)] + Messages(None, after)
  {
    FragmentsAccumulate(None, fragments);
    var mid := PendingAfter(None, fragments);
    assert fragments + [last] + after == fragments + ([last] + after);
    MessagesAppend(None, fragments, [last] + after);
    assert ([last] + after)[1..] == after && ([whole] + after)[1..] == after;
    assert Got(mid) == [] + Bodies(fragments) == Bodies(fragments);
    assert [] + whole.body == whole.body;
  }

  /** The same on the wire: the bytes of any division carry the one message with the whole body. */
  lemma DividedBatch(fragments: seq<Packet>, last: Packet)
    requires forall i :: 0 <= i < |fragments| ==> IsFragment(fragments[i]) && PacketOk(fragments[i])
    requires last.header.ptype == SqlBatch && !IsIgnore(last.header.status) && IsEndOfMessage(last.header.status)
    requires PacketOk(last)
    ensures MessagesOf(StreamBytes(fragments + [last])) == [Message(SqlBatch, Bodies(fragments) + last.body)]
  {
    hide Messages, MessageAt, PacketsOf, StreamBytes, Bodies;
    StreamRoundTrip(fragments + [last]);
    var whole := last.(body := Bodies(fragments) + last.body);
    BatchDivision(fragments, last, whole, []);
    assert fragments + [last] + [] == fragments + [last];
    assert Messages(None, []) == [] by {
      NoMessages();
    }
  }

  lemma NoMessages()
    ensures Messages(None, []) == []
  {
  }

  /** A partial batch that is withdrawn, or interrupted by another message type, leaves nothing behind:
      what follows arrives as if the partial batch had never been sent. */
  lemma NoResidue(fragments: seq<Packet>, breaker: Packet, after: seq<Packet>)
    requires forall i :: 0 <= i < |fragments| ==> IsFragment(fragments[i])
    requires breaker.header.ptype != SqlBatch || IsIgnore(breaker.header.status)
    ensures Messages(None, fragments + [breaker] + after) == Messages(None, [breaker] + after)
         == MessageAt(None, breaker) + Messages(None, after)
  {
    FragmentsAccumulate(None, fragments);
    assert fragments + [breaker] + after == fragments + ([breaker] + after);
    MessagesAppend(None, fragments, [breaker] + after);
    assert ([breaker] + after)[1..] == after;
  }
}
