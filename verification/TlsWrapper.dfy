/** `TdsTlsWrapper`: TLS handshake bytes carried inside TDS packets, then raw TLS records. */
module TlsWrapper {
  import opened ByteCodec

  const TDS_HEADER_SIZE := 8
  const TDS_TABULAR_RESULT: byte := 0x04
  const MAX_PAYLOAD := 65527

  predicate IsTlsRecordType(b: byte) { 0x14 <= b <= 0x17 }

  /** Packet length field of a TDS header. */
  function HeaderLength(header: seq<byte>): u16
    requires |header| >= TDS_HEADER_SIZE
  {
    BeU16(header[2..4])
  }

  /** What a reader should see of a wire stream: the payloads of its complete TDS packets, and from
      the first packet boundary that holds a TLS record type, the stream itself. */
  function Unwrap(wire: seq<byte>): seq<byte>
    decreases |wire|
  {
    if wire == [] then []
    else if IsTlsRecordType(wire[0]) then wire
    else if |wire| < TDS_HEADER_SIZE then []
    else
      var len := HeaderLength(wire);
      if len < TDS_HEADER_SIZE || |wire| < len then []
      else wire[TDS_HEADER_SIZE..len] + Unwrap(wire[len..])
  }

  /** `done` ends at a packet boundary and holds the payloads `emitted`. */
  ghost predicate Boundary(done: seq<byte>, emitted: seq<byte>) {
    forall c: seq<byte> {:trigger Unwrap(done + c)} :: Unwrap(done + c) == emitted + Unwrap(c)
  }

  /** After `done` everything is raw. */
  ghost predicate Raw(done: seq<byte>, emitted: seq<byte>) {
    forall c: seq<byte> {:trigger Unwrap(done + c)} :: Unwrap(done + c) == emitted + c
  }

  /** A complete TDS packet. */
  ghost predicate IsPacket(p: seq<byte>) {
    |p| >= TDS_HEADER_SIZE && !IsTlsRecordType(p[0]) && HeaderLength(p) == |p|
  }

  lemma UnwrapPacket(p: seq<byte>, c: seq<byte>)
    requires IsPacket(p)
    ensures Unwrap(p + c) == p[TDS_HEADER_SIZE..] + Unwrap(c)
  {
    var w := p + c;
    assert w[2..4] == p[2..4];
    assert w[TDS_HEADER_SIZE..|p|] == p[TDS_HEADER_SIZE..];
    assert w[|p|..] == c;
  }

  lemma UnwrapNothing()
    ensures Unwrap([]) == []
  {
  }

  lemma BoundaryStart()
    ensures Boundary([], [])
  {
    forall c: seq<byte> ensures Unwrap([] + c) == [] + Unwrap(c) {
      assert [] + c == c;
    }
  }

  lemma BoundaryStep(done: seq<byte>, emitted: seq<byte>, p: seq<byte>)
    requires Boundary(done, emitted) && IsPacket(p)
    ensures Boundary(done + p, emitted + p[TDS_HEADER_SIZE..])
  {
    hide Unwrap;
    forall c: seq<byte> ensures Unwrap(done + p + c) == emitted + p[TDS_HEADER_SIZE..] + Unwrap(c) {
      assert done + p + c == done + (p + c);
      UnwrapPacket(p, c);
    }
  }

  lemma RawStart(done: seq<byte>, emitted: seq<byte>, first: byte)
    requires Boundary(done, emitted) && IsTlsRecordType(first)
    ensures Raw(done + [first], emitted + [first])
  {
    forall c: seq<byte> ensures Unwrap(done + [first] + c) == emitted + [first] + c {
      assert done + [first] + c == done + ([first] + c);
      assert Unwrap([first] + c) == [first] + c;
    }
  }

  lemma RawStep(done: seq<byte>, emitted: seq<byte>, data: seq<byte>)
    requires Raw(done, emitted)
    ensures Raw(done + data, emitted + data)
  {
    hide Unwrap;
    forall c: seq<byte> ensures Unwrap(done + data + c) == emitted + data + c {
      assert done + data + c == done + (data + c);
    }
  }

  /** Bytes of a packet that is not complete contribute nothing. */
  lemma UnwrapPartial(p: seq<byte>)
    requires p != [] ==> !IsTlsRecordType(p[0])
    requires |p| >= TDS_HEADER_SIZE ==> HeaderLength(p) < TDS_HEADER_SIZE || |p| < HeaderLength(p)
    ensures Unwrap(p) == []
  {
  }

  lemma {:induction false} UnwrapPrefix(a: seq<byte>, b: seq<byte>)
    ensures Unwrap(a) <= Unwrap(a + b)
    decreases |a|
  {
    if FrontPacket(a) {
      var p, rest := a[..HeaderLength(a)], a[HeaderLength(a)..];
      SplitFront(a);
      UnwrapPacket(p, rest);
      UnwrapPacket(p, rest + b);
      hide Unwrap;
      UnwrapPrefix(rest, b);
      Regroup(p, rest, b);
    }
  }

  /** A complete packet starts the stream. */
  ghost predicate FrontPacket(wire: seq<byte>) {
    |wire| >= TDS_HEADER_SIZE && !IsTlsRecordType(wire[0]) && TDS_HEADER_SIZE <= HeaderLength(wire) <= |wire|
  }

  lemma SplitFront(wire: seq<byte>)
    requires FrontPacket(wire)
    ensures var len := HeaderLength(wire);
            wire == wire[..len] + wire[len..] && IsPacket(wire[..len])
  {
    assert wire[..HeaderLength(wire)][2..4] == wire[2..4];
  }

  /** How often the socket was blocked and how often it was broken. */
  datatype Refusals = Refusals(blocked: nat, broken: nat)

  function Counted(c: Refusals, blocked: bool, broken: bool): Refusals {
    Refusals(c.blocked + (if blocked then 1 else 0), c.broken + if broken then 1 else 0)
  }

  datatype InnerRead = ReadPending | ReadFailed | ReadReady(data: seq<byte>)
  datatype InnerWrite = WritePending | WriteFailed | WriteReady(n: nat)

  datatype ReadPhase = DetectType | ReadingTdsHeader | ReadingTdsPayload | HaveData | PassThroughRead
  datatype WritePhase = Idle | Writing
  datatype WrapperMode = Handshake | PassThrough

  datatype ReadError = UnexpectedEof | InvalidLength(length: nat) | InnerError
  datatype PollRead = Pending | Failed(error: ReadError) | Delivered(data: seq<byte>) | Panicked
  /** Errors the wire itself gives rise to: it stops between or inside packets, or a length is too short. */
  predicate EndsWire(r: PollRead) { r.Failed? && !r.error.InnerError? }

  /** The poll that ended a reading left nothing of the wire unread: an end of the raw stream, or an error the
      wire itself gives rise to. */
  predicate Complete(end: Option<PollRead>) { end.Some? && (end.value == Delivered([]) || EndsWire(end.value)) }

  /** How many of the caller's buffers have room. */
  function Roomy(caps: seq<nat>): nat {
    if caps == [] then 0 else (if caps[0] > 0 then 1 else 0) + Roomy(caps[1..])
  }

  lemma {:induction false} RoomySnoc(caps: seq<nat>, cap: nat)
    ensures Roomy(caps + [cap]) == Roomy(caps) + if cap > 0 then 1 else 0
  {
    if caps == [] {
      assert caps + [cap] == [cap];
    } else {
      assert (caps + [cap])[1..] == caps[1..] + [cap];
      RoomySnoc(caps[1..], cap);
    }
  }

  lemma {:induction false} AllRoomy(caps: seq<nat>)
    ensures 0 !in caps ==> Roomy(caps) == |caps|
  {
    if caps != [] && 0 !in caps {
      AllRoomy(caps[1..]);
    }
  }

  datatype PollWrite = WriteBlocked | WriteBroken | Accepted(n: nat)

  /** The socket. `incoming` is everything the peer will ever send; how much of it a poll finds ready,
      and whether it finds the socket blocked or broken, is not determined. */
  class TcpStream {
    var incoming: seq<byte>
    var written: seq<byte>
    ghost var refusals: Refusals

    constructor (incoming: seq<byte>)
      ensures this.incoming == incoming && written == [] && refusals == Refusals(0, 0)
    {
      this.incoming := incoming;
      written := [];
      refusals := Refusals(0, 0);
    }

    method PollRead(cap: nat) returns (r: InnerRead)
      modifies this`incoming, this`refusals
      ensures refusals == Counted(old(refusals), r.ReadPending?, r.ReadFailed?)
      ensures !r.ReadReady? ==> incoming == old(incoming)
      ensures r.ReadReady? ==>
                && old(incoming) == r.data + incoming && |r.data| <= cap
                && (r.data == [] ==> cap == 0 || incoming == [])
    {
      var choice: nat :| choice < 3;
      if choice == 0 {
        refusals := Counted(refusals, true, false);
        return ReadPending;
      } else if choice == 1 {
        refusals := Counted(refusals, false, true);
        return ReadFailed;
      }
      var limit := if cap < |incoming| then cap else |incoming|;
      var n: nat :| n <= limit && (n == 0 ==> limit == 0);
      r := ReadReady(incoming[..n]);
      incoming := incoming[n..];
    }

    /** Takes at least one byte of a nonempty buffer when it is ready. */
    method PollWrite(data: seq<byte>) returns (r: InnerWrite)
      modifies this`written, this`refusals
      ensures refusals == Counted(old(refusals), r.WritePending?, r.WriteFailed?)
      ensures !r.WriteReady? ==> written == old(written)
      ensures r.WriteReady? ==>
                && r.n <= |data| && (data != [] ==> r.n > 0)
                && written == old(written) + data[..r.n]
    {
      var choice: nat :| choice < 3;
      if choice == 0 {
        refusals := Counted(refusals, true, false);
        return WritePending;
      } else if choice == 1 {
        refusals := Counted(refusals, false, true);
        return WriteFailed;
      }
      var n: nat :| n <= |data| && (data != [] ==> n > 0);
      written := written + data[..n];
      return WriteReady(n);
    }
  }

  // Write side

  /** One outgoing buffer in a TabularResult packet; the length field is truncated to 16 bits. */
  function Frame(buf: seq<byte>, id: byte): (p: seq<byte>)
    ensures |p| == TDS_HEADER_SIZE + |buf|
  {
    [TDS_TABULAR_RESULT, 0x01] + Be16(|buf| + TDS_HEADER_SIZE) + Be16(0) + [id, 0] + buf
  }

  function NextId(id: byte): byte { (id + 1) % 256 }

  lemma NextIdAfter(n: nat)
    ensures NextId((1 + n) % 256) == (2 + n) % 256
  {
  }

  /** Buffers framed in order, packet ids counting up modulo 256. */
  function Frames(bufs: seq<seq<byte>>, id: byte): seq<byte> {
    if bufs == [] then [] else Frame(bufs[0], id) + Frames(bufs[1..], NextId(id))
  }

  lemma {:induction false} FramesSnoc(bufs: seq<seq<byte>>, b: seq<byte>, id: byte)
    ensures Frames(bufs + [b], id) == Frames(bufs, id) + Frame(b, (id + |bufs|) % 256)
    decreases |bufs|
  {
    hide Frame;
    if bufs == [] {
      assert bufs + [b] == [b] && [b][1..] == [];
      assert Frames([b], id) == Frame(b, id) + Frames([], NextId(id));
    } else {
      assert (bufs + [b])[1..] == bufs[1..] + [b];
      FramesSnoc(bufs[1..], b, NextId(id));
      assert (NextId(id) + (|bufs| - 1)) % 256 == (id + |bufs|) % 256;
    }
  }

  lemma FrameHeader(b: seq<byte>, id: byte)
    ensures var p := Frame(b, id);
            && !IsTlsRecordType(p[0])
            && HeaderLength(p) == (|b| + TDS_HEADER_SIZE) % 0x1_0000
            && p[TDS_HEADER_SIZE..] == b
  {
    var p := Frame(b, id);
    assert p[2..4] == Be16(|b| + TDS_HEADER_SIZE);
    U16Le16(|b| + TDS_HEADER_SIZE);
  }

  /** Reading back what the write side framed gives the buffers in order, then whatever follows. */
  lemma {:induction false} UnwrapFrames(bufs: seq<seq<byte>>, id: byte, tail: seq<byte>)
    requires forall i :: 0 <= i < |bufs| ==> |bufs[i]| <= MAX_PAYLOAD
    ensures Unwrap(Frames(bufs, id) + tail) == Flatten(bufs) + Unwrap(tail)
    decreases |bufs|
  {
    hide Frame, Unwrap, HeaderLength, IsTlsRecordType;
    if bufs == [] {
      assert Frames(bufs, id) + tail == tail;
    } else {
      FrameHeader(bufs[0], id);
      assert Frames(bufs, id) + tail == Frame(bufs[0], id) + (Frames(bufs[1..], NextId(id)) + tail);
      UnwrapPacket(Frame(bufs[0], id), Frames(bufs[1..], NextId(id)) + tail);
      UnwrapFrames(bufs[1..], NextId(id), tail);
    }
  }

  lemma {:induction false} UnwrapShrinks(w: seq<byte>)
    ensures |Unwrap(w)| <= |w|
    ensures Unwrap(w) == w <==> w == [] || IsTlsRecordType(w[0])
    decreases |w|
  {
    if w != [] && !IsTlsRecordType(w[0]) && |w| >= TDS_HEADER_SIZE {
      var len := HeaderLength(w);
      if TDS_HEADER_SIZE <= len <= |w| {
        UnwrapShrinks(w[len..]);
      }
    }
  }

  /** A single frame reads back as its buffer exactly when the buffer fits the length field, or the
      truncated length happens to cut it in front of a TLS record type. */
  lemma FrameReadsBackIff(b: seq<byte>, id: byte)
    ensures var cut := (|b| + TDS_HEADER_SIZE) % 0x1_0000 - TDS_HEADER_SIZE;
            Unwrap(Frame(b, id)) == b <==> |b| <= MAX_PAYLOAD || (cut >= 0 && IsTlsRecordType(b[cut]))
  {
    var p := Frame(b, id);
    FrameHeader(b, id);
    if |b| <= MAX_PAYLOAD {
      UnwrapPacket(p, []);
      hide Unwrap, Frame;
      UnwrapNothing();
      assert p + [] == p && b + [] == b;
    } else if FrontPacket(p) {
      hide Frame;
      CutFrame(p, b);
    } else {
      assert Unwrap(p) == [];
    }
  }

  /** One byte too many: the length field is zero, and nothing is read back. */
  lemma OversizedIsLost(id: byte)
    ensures var b: seq<byte> := seq(MAX_PAYLOAD + 1, _ => 0); Unwrap(Frame(b, id)) != b
  {
    hide Unwrap, Frame;
    var b: seq<byte> := seq(MAX_PAYLOAD + 1, _ => 0);
    FrameReadsBackIff(b, id);
  }

  /** A truncated length cuts the buffer in two, and the second part is read as a stream of its own. */
  lemma CutFrame(p: seq<byte>, b: seq<byte>)
    requires FrontPacket(p) && p[TDS_HEADER_SIZE..] == b && HeaderLength(p) < |p|
    ensures var cut := HeaderLength(p) - TDS_HEADER_SIZE;
            cut < |b| && (Unwrap(p) == b <==> IsTlsRecordType(b[cut]))
  {
    var len := HeaderLength(p);
    var cut := len - TDS_HEADER_SIZE;
    SplitFront(p);
    UnwrapPacket(p[..len], p[len..]);
    hide Unwrap;
    assert p[..len][TDS_HEADER_SIZE..] == b[..cut] && p[len..] == b[cut..];
    UnwrapShrinks(b[cut..]);
    assert b == b[..cut] + b[cut..];
    assert b[..cut] + Unwrap(b[cut..]) == b <==> Unwrap(b[cut..]) == b[cut..] by {
      SamePrefix(b[..cut], Unwrap(b[cut..]), b[cut..]);
    }
  }

  lemma SamePrefix(a: seq<byte>, b: seq<byte>, c: seq<byte>)
    ensures a + b == a + c <==> b == c
  {
    if a + b == a + c {
      assert (a + b)[|a|..] == b && (a + c)[|a|..] == c;
    }
  }

  // Read side: the state of the read machine as a value, and what each transition keeps

  datatype ReadState =
    ReadState(phase: ReadPhase, buffer: seq<byte>, header: seq<byte>, headerRead: nat, remaining: nat,
              consumed: seq<byte>, delivered: seq<byte>, done: seq<byte>)

  ghost predicate Shape(s: ReadState) {
    && |s.header| == TDS_HEADER_SIZE && s.headerRead <= TDS_HEADER_SIZE
    && (s.phase == ReadingTdsHeader ==> 1 <= s.headerRead)
    && (s.phase == ReadingTdsHeader && s.headerRead == TDS_HEADER_SIZE ==> HeaderLength(s.header) < TDS_HEADER_SIZE)
    && (s.phase == ReadingTdsPayload ==> s.remaining > 0)
  }

  /** The buffer's contents do not matter to the shape. */
  lemma GrownShape(s: ReadState, buffer: seq<byte>)
    requires Shape(s) && s.phase == ReadingTdsPayload
    ensures Shape(s.(buffer := buffer)) && s.remaining > 0
  {
  }

  /** The consumed bytes behind the last packet boundary. */
  ghost function Partial(s: ReadState): seq<byte>
    requires Shape(s)
  {
    match s.phase
    case ReadingTdsHeader => s.header[..s.headerRead]
    case ReadingTdsPayload => s.header + s.buffer
    case _ => []
  }

  /** Payload held back from the caller: only bytes of complete packets count. */
  ghost function Buffered(s: ReadState): seq<byte> {
    if s.phase == HaveData then s.buffer else []
  }

  /** The machine stands where the specification says after the bytes it consumed. */
  ghost predicate Stands(s: ReadState) {
    && Shape(s)
    && (s.phase == PassThroughRead ==> s.buffer == [] && Raw(s.consumed, s.delivered))
    && (s.phase != PassThroughRead ==> s.consumed == s.done + Partial(s) && Boundary(s.done, s.delivered + Buffered(s)))
    && (s.phase == ReadingTdsHeader ==> s.headerRead < TDS_HEADER_SIZE)
    && (s.phase == ReadingTdsHeader || s.phase == ReadingTdsPayload ==> !IsTlsRecordType(s.header[0]))
    && (s.phase == DetectType || s.phase == ReadingTdsHeader ==> s.buffer == [])
    && (s.phase == ReadingTdsPayload ==> HeaderLength(s.header) == TDS_HEADER_SIZE + |s.buffer| + s.remaining)
  }

  /** At every moment the caller has seen the unwrapping of exactly the bytes read so far, short of
      what is buffered; hence a prefix of the unwrapping of the whole stream. */
  lemma Refines(s: ReadState, rest: seq<byte>)
    requires Stands(s)
    ensures s.delivered + Buffered(s) == Unwrap(s.consumed)
    ensures s.delivered <= Unwrap(s.consumed + rest)
  {
    if s.phase == PassThroughRead {
      assert s.consumed + [] == s.consumed;
      assert s.delivered + [] == s.delivered;
      assert Unwrap(s.consumed + []) == s.delivered + [];
    } else {
      var p := Partial(s);
      if s.phase == ReadingTdsPayload {
        assert p[2..4] == s.header[2..4];
      }
      UnwrapPartial(p);
      assert Unwrap(s.done + p) == s.delivered + Buffered(s) + Unwrap(p);
    }
    UnwrapPrefix(s.consumed, rest);
  }

  lemma StandsInitially(header: seq<byte>)
    requires |header| == TDS_HEADER_SIZE
    ensures Stands(ReadState(DetectType, [], header, 0, 0, [], [], []))
  {
    BoundaryStart();
  }

  lemma HeaderNotFull(s: ReadState)
    requires Shape(s) && s.phase == ReadingTdsHeader && s.headerRead == TDS_HEADER_SIZE
    ensures !Stands(s)
  {
  }

  lemma PassThroughBufferEmpty(s: ReadState)
    requires Shape(s) && s.phase == PassThroughRead && s.buffer != []
    ensures !Stands(s)
  {
  }

  /** The drained buffer goes back to type detection. */
  lemma DrainedStands(s: ReadState, header: seq<byte>)
    requires Stands(s) && s.phase == HaveData && s.buffer == [] && |header| == TDS_HEADER_SIZE
    ensures Stands(s.(phase := DetectType, header := header, headerRead := 0))
  {
    hide Boundary;
  }

  lemma DeliverStands(s: ReadState, n: nat)
    requires Stands(s) && s.phase == HaveData && n <= |s.buffer|
    ensures Stands(s.(buffer := s.buffer[n..], delivered := s.delivered + s.buffer[..n]))
  {
    hide Boundary;
    assert s.delivered + s.buffer[..n] + s.buffer[n..] == s.delivered + s.buffer;
  }

  lemma DetectRawStands(s: ReadState, b: byte)
    requires Stands(s) && s.phase == DetectType && IsTlsRecordType(b)
    ensures Stands(s.(phase := PassThroughRead, consumed := s.consumed + [b], delivered := s.delivered + [b]))
  {
    hide Boundary, Raw;
    assert s.done + [] == s.done && s.delivered + [] == s.delivered;
    RawStart(s.done, s.delivered, b);
  }

  lemma DetectPacketStands(s: ReadState, b: byte)
    requires Stands(s) && s.phase == DetectType && !IsTlsRecordType(b)
    ensures Stands(s.(phase := ReadingTdsHeader, header := s.header[0 := b], headerRead := 1,
                      consumed := s.consumed + [b]))
  {
    hide Boundary;
    assert s.done + [] == s.done;
    assert s.header[0 := b][..1] == [b];
  }

  /** `data` laid over the header at the fill position. */
  function Overlay(header: seq<byte>, at: nat, data: seq<byte>): seq<byte>
    requires at + |data| <= |header|
  {
    header[..at] + data + header[at + |data|..]
  }

  lemma OverlayLength(header: seq<byte>, at: nat, data: seq<byte>)
    requires at + |data| <= |header|
    ensures |Overlay(header, at, data)| == |header|
  {
  }

  lemma HeaderMoreStands(s: ReadState, data: seq<byte>)
    requires Stands(s) && s.phase == ReadingTdsHeader && s.headerRead + |data| < TDS_HEADER_SIZE
    ensures Stands(s.(header := Overlay(s.header, s.headerRead, data), headerRead := s.headerRead + |data|,
                      consumed := s.consumed + data))
  {
    hide Boundary;
    var header := Overlay(s.header, s.headerRead, data);
    assert header[..s.headerRead + |data|] == s.header[..s.headerRead] + data;
    assert s.done + s.header[..s.headerRead] + data == s.done + (s.header[..s.headerRead] + data);
  }

  /** The header is complete: `header` is all of it. */
  ghost predicate HeaderDone(s: ReadState, data: seq<byte>, header: seq<byte>) {
    && Shape(s) && s.phase == ReadingTdsHeader && s.headerRead + |data| == TDS_HEADER_SIZE
    && header == Overlay(s.header, s.headerRead, data)
  }

  lemma HeaderDoneConsumed(s: ReadState, data: seq<byte>, header: seq<byte>)
    requires Stands(s) && HeaderDone(s, data, header)
    ensures s.consumed + data == s.done + header && |header| == TDS_HEADER_SIZE && header[0] == s.header[0]
  {
    hide Boundary;
    assert header == s.header[..s.headerRead] + data;
    assert s.done + s.header[..s.headerRead] + data == s.done + (s.header[..s.headerRead] + data);
  }

  lemma EmptyPacketStands(s: ReadState, data: seq<byte>, header: seq<byte>, cleared: seq<byte>)
    requires Stands(s) && HeaderDone(s, data, header) && HeaderLength(header) == TDS_HEADER_SIZE
    requires |cleared| == TDS_HEADER_SIZE
    ensures Stands(s.(phase := DetectType, header := cleared, headerRead := 0,
                      consumed := s.consumed + data, done := s.done + header))
  {
    hide Boundary;
    HeaderDoneConsumed(s, data, header);
    BoundaryStep(s.done, s.delivered + [], header);
    assert header[TDS_HEADER_SIZE..] == [];
    assert s.delivered + [] + [] == s.delivered + [];
    assert s.done + header + [] == s.done + header;
  }

  /** A length below the header's own ends the specified reading, whatever follows. */
  lemma ShortLengthEnds(s: ReadState, data: seq<byte>, header: seq<byte>, rest: seq<byte>)
    requires Stands(s) && HeaderDone(s, data, header) && HeaderLength(header) < TDS_HEADER_SIZE
    ensures Unwrap(s.consumed + data + rest) == s.delivered
  {
    HeaderDoneConsumed(s, data, header);
    Regroup(s.done, header, rest);
    assert (header + rest)[2..4] == header[2..4];
    assert Unwrap(header + rest) == [];
    assert Unwrap(s.done + (header + rest)) == s.delivered + [] + [];
  }

  /** The wire stops while no complete packet is buffered. */
  lemma WireEnds(s: ReadState, rest: seq<byte>)
    requires Stands(s) && s.phase != HaveData && rest == []
    ensures s.delivered == Unwrap(s.consumed + rest)
  {
    hide Unwrap, Stands;
    Refines(s, rest);
    assert s.consumed + rest == s.consumed && s.delivered + [] == s.delivered;
  }

  lemma PayloadStartStands(s: ReadState, data: seq<byte>, header: seq<byte>)
    requires Stands(s) && HeaderDone(s, data, header) && HeaderLength(header) > TDS_HEADER_SIZE
    ensures Stands(s.(phase := ReadingTdsPayload, header := header, headerRead := TDS_HEADER_SIZE,
                      remaining := HeaderLength(header) - TDS_HEADER_SIZE, consumed := s.consumed + data))
  {
    hide Boundary;
    HeaderDoneConsumed(s, data, header);
    assert header + [] == header;
  }

  lemma PayloadMoreStands(s: ReadState, data: seq<byte>)
    requires Stands(s) && s.phase == ReadingTdsPayload && |data| < s.remaining
    ensures Stands(s.(buffer := s.buffer + data, remaining := s.remaining - |data|, consumed := s.consumed + data))
  {
    hide Boundary;
    assert s.done + (s.header + (s.buffer + data)) == s.done + (s.header + s.buffer) + data;
  }

  lemma PayloadDoneStands(s: ReadState, data: seq<byte>)
    requires Stands(s) && s.phase == ReadingTdsPayload && |data| == s.remaining
    ensures Stands(s.(phase := HaveData, buffer := s.buffer + data, remaining := 0, consumed := s.consumed + data,
                      done := s.done + (s.header + (s.buffer + data))))
  {
    hide Boundary;
    var payload := s.buffer + data;
    var p := s.header + payload;
    assert s.done + p == s.done + (s.header + s.buffer) + data;
    assert p[2..4] == s.header[2..4] && p[TDS_HEADER_SIZE..] == payload;
    BoundaryStep(s.done, s.delivered + [], p);
    assert s.delivered + [] + payload == s.delivered + payload;
    assert s.done + p + [] == s.done + p;
  }

  lemma ForwardStands(s: ReadState, data: seq<byte>)
    requires Stands(s) && s.phase == PassThroughRead
    ensures Stands(s.(consumed := s.consumed + data, delivered := s.delivered + data))
  {
    hide Raw;
    RawStep(s.consumed, s.delivered, data);
  }

  class TdsTlsWrapper {
    const inner: TcpStream
    var mode: WrapperMode
    var readBuffer: seq<byte>
    var readPhase: ReadPhase
    var headerBuf: seq<byte>
    var headerBytesRead: nat
    var payloadRemaining: nat
    var writePhase: WritePhase
    var writeBuffer: seq<byte>
    var writeBytesWritten: nat
    var writePayloadLen: nat
    var packetId: byte

    /** Bytes taken from the socket and bytes handed to the caller. */
    ghost var consumed: seq<byte>
    ghost var delivered: seq<byte>
    /** The consumed bytes up to the last packet boundary. */
    ghost var done: seq<byte>
    /** A poll has reported an error or panicked. */
    ghost var readFailed: bool
    ghost var writeFailed: bool
    /** Buffers fully written in handshake mode, the one being written, and the raw output after it. */
    ghost var accepted: seq<seq<byte>>
    ghost var current: seq<byte>
    ghost var rawOut: seq<byte>

    ghost function State(): ReadState
      reads this`readPhase, this`readBuffer, this`headerBuf, this`headerBytesRead, this`payloadRemaining
      reads this`consumed, this`delivered, this`done
    {
      ReadState(readPhase, readBuffer, headerBuf, headerBytesRead, payloadRemaining, consumed, delivered, done)
    }

    /** Shape on every path; the specification position as long as no poll has failed. */
    ghost predicate ReadValid()
      reads this`readPhase, this`readBuffer, this`headerBuf, this`headerBytesRead, this`payloadRemaining
      reads this`consumed, this`delivered, this`done
      reads this`mode, this`readFailed
    {
      && Shape(State()) && (readPhase == PassThroughRead ==> mode == PassThrough)
      && (!readFailed ==> Stands(State()))
    }

    /** The part of the packet in progress that is on the wire. */
    ghost function InFlight(): seq<byte>
      requires writeBytesWritten <= |writeBuffer|
      reads this`writePhase, this`writeBuffer, this`writeBytesWritten
    {
      if writePhase == Writing then writeBuffer[..writeBytesWritten] else []
    }

    /** The wire holds the accepted buffers, each framed once, then the started part of the packet in
        progress, then what was written raw. */
    ghost predicate WriteValid()
      reads this`mode, this`writePhase, this`writeBuffer, this`writeBytesWritten, this`writePayloadLen, this`packetId
      reads this`writeFailed, this`accepted, this`current, this`rawOut, inner`written
    {
      && writeBytesWritten <= |writeBuffer|
      && (writePhase == Writing ==> writeBytesWritten < |writeBuffer| && writePayloadLen == |current|)
      && (mode == Handshake ==> rawOut == [])
      && (!writeFailed ==>
            && inner.written == Frames(accepted, 1) + InFlight() + rawOut
            && packetId == ((if writePhase == Writing then 2 else 1) + |accepted|) % 256
            && (writePhase == Writing ==> writeBuffer == Frame(current, (1 + |accepted|) % 256)))
    }

    constructor (stream: TcpStream)
      requires stream.written == []
      ensures inner == stream && ReadValid() && WriteValid()
      ensures mode == Handshake && writePhase == Idle && !readFailed && !writeFailed && consumed == []
      ensures readPhase == DetectType && delivered == [] && accepted == [] && rawOut == []
    {
      inner := stream;
      mode, readBuffer, readPhase := Handshake, [], DetectType;
      headerBuf, headerBytesRead, payloadRemaining := seq(TDS_HEADER_SIZE, _ => 0), 0, 0;
      writePhase, writeBuffer, writeBytesWritten, writePayloadLen, packetId := Idle, [], 0, 0, 1;
      consumed, delivered, done, readFailed, writeFailed := [], [], [], false, false;
      accepted, current, rawOut := [], [], [];
      StandsInitially(seq(TDS_HEADER_SIZE, _ => 0));
    }

    /** What one step of the read loop does to the streams: `None` means go round again. */
    twostate predicate Step(new r: Option<PollRead>, cap: nat)
      reads this, inner
    {
      && ReadValid()
      && old(consumed) <= consumed && consumed + inner.incoming == old(consumed + inner.incoming)
      && delivered == old(delivered) + (if r.Some? && r.value.Delivered? then r.value.data else [])
      && (old(mode) == PassThrough ==> mode == PassThrough)
      && (readFailed <==> old(readFailed) || (r.Some? && (r.value.Failed? || r.value.Panicked?)))
      && (r.Some? && r.value.Delivered? ==> |r.value.data| <= cap)
      && inner.refusals == Counted(old(inner.refusals), r == Some(Pending), r == Some(Failed(InnerError)))
      && (r == Some(Panicked) <==> cap == 0 && old(readPhase) != PassThroughRead && readPhase == PassThroughRead)
      && (r.None? ==> readPhase != PassThroughRead)
      && (old(readPhase) == PassThroughRead ==> readPhase == PassThroughRead)
      && (r == Some(Failed(UnexpectedEof)) ==> inner.incoming == [])
      && (r.Some? && r.value.Failed? && r.value.error.InvalidLength? ==> r.value.error.length < TDS_HEADER_SIZE)
      && (r.Some? && r.value == Delivered([]) ==> cap == 0 || RawEnd())
      && (r.Some? && EndsWire(r.value) && !old(readFailed) ==> delivered == Unwrap(consumed + inner.incoming))
    }

    ghost predicate RawPhase()
      reads this`readPhase
    {
      readPhase == PassThroughRead
    }

    /** The raw stream is exhausted. */
    ghost predicate RawEnd()
      reads this`readPhase, inner`incoming
    {
      readPhase == PassThroughRead && inner.incoming == []
    }

    /** With nothing more to come and no complete packet buffered, everything is delivered. */
    lemma CutOff()
      requires ReadValid() && readPhase != HaveData && inner.incoming == []
      ensures !readFailed ==> delivered == Unwrap(consumed + inner.incoming)
    {
      hide Unwrap, Stands;
      if !readFailed {
        WireEnds(State(), inner.incoming);
      }
    }

    /** Hands buffered payload to the caller. */
    method DeliverBuffered(cap: nat) returns (r: PollRead)
      requires ReadValid() && readPhase == HaveData && readBuffer != []
      modifies this`readBuffer, this`delivered
      ensures Step(Some(r), cap) && r.Delivered?
    {
      hide Stands, Unwrap;
      ghost var s := State();
      var n := if cap < |readBuffer| then cap else |readBuffer|;
      r := Delivered(readBuffer[..n]);
      if !readFailed {
        DeliverStands(s, n);
      }
      delivered := delivered + readBuffer[..n];
      readBuffer := readBuffer[n..];
    }

    /** Reads the type byte of the next packet. */
    method Detect(cap: nat) returns (r: Option<PollRead>)
      requires ReadValid() && readPhase == DetectType
      modifies this`readBuffer, this`readPhase, this`headerBuf, this`headerBytesRead, this`payloadRemaining
      modifies this`mode, this`consumed, this`delivered, this`done, this`readFailed, inner`incoming, inner`refusals
      ensures Step(r, cap)
      ensures r.None? ==> readPhase == ReadingTdsHeader && |inner.incoming| < |old(inner.incoming)|
      ensures r == Some(Panicked) ==> cap == 0 && old(inner.incoming) != [] && IsTlsRecordType(old(inner.incoming)[0])
    {
      hide Stands, Shape, Unwrap;
      var first := inner.PollRead(1);
      match first {
        case ReadPending => return Some(Pending);
        case ReadFailed => readFailed := true; return Some(Failed(InnerError));
        case ReadReady(data) =>
          if data == [] {
            CutOff();
            readFailed := true;
            return Some(Failed(UnexpectedEof));
          }
          assert data == [data[0]];
          Regroup(consumed, data, inner.incoming);
          r := TakeType(data[0], cap);
      }
    }

    /** A type byte either starts a packet or ends the framing for good. */
    method TakeType(b: byte, cap: nat) returns (r: Option<PollRead>)
      requires ReadValid() && readPhase == DetectType
      modifies this`readPhase, this`headerBuf, this`headerBytesRead
      modifies this`mode, this`consumed, this`delivered, this`readFailed
      ensures ReadValid() && consumed == old(consumed) + [b]
      ensures delivered == old(delivered) + if IsTlsRecordType(b) && cap > 0 then [b] else []
      ensures old(mode) == PassThrough ==> mode == PassThrough
      ensures readFailed <==> old(readFailed) || r == Some(Panicked)
      ensures r == if !IsTlsRecordType(b) then None else if cap == 0 then Some(Panicked) else Some(Delivered([b]))
      ensures readPhase == if r.None? then ReadingTdsHeader else PassThroughRead
    {
      hide Stands, Unwrap;
      ghost var s := State();
      consumed := consumed + [b];
      if IsTlsRecordType(b) {
        mode, readPhase := PassThrough, PassThroughRead;
        if cap == 0 {
          readFailed := true;
          return Some(Panicked);
        }
        if !readFailed {
          DetectRawStands(s, b);
        }
        delivered := delivered + [b];
        return Some(Delivered([b]));
      }
      if !readFailed {
        DetectPacketStands(s, b);
      }
      headerBuf := headerBuf[0 := b];
      headerBytesRead := 1;
      readPhase := ReadingTdsHeader;
      return None;
    }

    /** A raw byte meets a caller's buffer without room: it is lost, and the poll panics. */
    static method EmptyBufferPanics() returns (reader: TdsTlsWrapper, r: Option<PollRead>)
      ensures r == Some(Panicked) && fresh(reader) && reader.consumed == [0x17] && reader.delivered == []
    {
      hide Stands, Shape, Unwrap;
      var stream := new TcpStream([0x17]);
      reader := new TdsTlsWrapper(stream);
      r := reader.TakeType(0x17, 0);
      assert [] + [0x17] == [0x17 as byte];
    }

    /** The inner loop that completes the header. On `None`, `last` is the read that completed it in state `s`. */
    method FillHeader(cap: nat) returns (r: Option<PollRead>, ghost s: ReadState, ghost last: seq<byte>)
      requires ReadValid() && readPhase == ReadingTdsHeader && headerBytesRead < TDS_HEADER_SIZE
      modifies this`headerBuf, this`headerBytesRead, this`consumed, this`readFailed, inner`incoming, inner`refusals
      ensures r.Some? ==> Step(r, cap) && !r.value.Panicked?
      ensures r.None? ==>
                && |headerBuf| == headerBytesRead == TDS_HEADER_SIZE && readFailed == old(readFailed)
                && inner.refusals == old(inner.refusals)
                && old(consumed) <= consumed && consumed + inner.incoming == old(consumed + inner.incoming)
                && |inner.incoming| < |old(inner.incoming)|
                && (!readFailed ==>
                      && Stands(s) && HeaderDone(s, last, headerBuf)
                      && State() == s.(header := headerBuf, headerRead := TDS_HEADER_SIZE,
                                       consumed := s.consumed + last))
    {
      hide Stands, Overlay, Unwrap;
      s, last := State(), [];
      while true
        invariant ReadValid() && readPhase == ReadingTdsHeader && headerBytesRead < TDS_HEADER_SIZE
        invariant s == State() && readFailed == old(readFailed) && inner.refusals == old(inner.refusals)
        invariant old(consumed) <= consumed && consumed + inner.incoming == old(consumed + inner.incoming)
        invariant |inner.incoming| <= |old(inner.incoming)|
        decreases TDS_HEADER_SIZE - headerBytesRead
      {
        var more := inner.PollRead(TDS_HEADER_SIZE - headerBytesRead);
        match more {
          case ReadPending => return Some(Pending), s, last;
          case ReadFailed => readFailed := true; return Some(Failed(InnerError)), s, last;
          case ReadReady(data) =>
            if data == [] {
              CutOff();
              readFailed := true;
              return Some(Failed(UnexpectedEof)), s, last;
            }
            Regroup(consumed, data, inner.incoming);
            OverlayLength(headerBuf, headerBytesRead, data);
            headerBuf := Overlay(headerBuf, headerBytesRead, data);
            headerBytesRead := headerBytesRead + |data|;
            consumed := consumed + data;
            if headerBytesRead == TDS_HEADER_SIZE {
              return None, s, data;
            }
            if !readFailed {
              HeaderMoreStands(s, data);
            }
            s := State();
        }
      }
    }

    /** Completes the header, then decides between an empty packet and a payload. */
    method ReadHeader(cap: nat) returns (r: Option<PollRead>)
      requires ReadValid() && readPhase == ReadingTdsHeader
      modifies this`readBuffer, this`readPhase, this`headerBuf, this`headerBytesRead, this`payloadRemaining
      modifies this`mode, this`consumed, this`delivered, this`done, this`readFailed, inner`incoming, inner`refusals
      ensures Step(r, cap)
      ensures r.None? ==> readPhase != HaveData && |inner.incoming| < |old(inner.incoming)|
      ensures r.Some? ==> !r.value.Panicked?
    {
      hide Stands, HeaderDone, Unwrap;
      ghost var s, last := State(), [];
      if headerBytesRead < TDS_HEADER_SIZE {
        r, s, last := FillHeader(cap);
        if r.Some? {
          return;
        }
      } else {
        assert readFailed by {
          HeaderNotFull(State());
        }
      }
      r := EnterPacket(s, last);
    }

    /** The header is complete: an empty packet is done at once, a payload is awaited. */
    method EnterPacket(ghost s: ReadState, ghost last: seq<byte>) returns (r: Option<PollRead>)
      requires readPhase == ReadingTdsHeader && |headerBuf| == headerBytesRead == TDS_HEADER_SIZE
      requires !readFailed ==>
                 && Stands(s) && HeaderDone(s, last, headerBuf)
                 && State() == s.(header := headerBuf, headerRead := TDS_HEADER_SIZE, consumed := s.consumed + last)
      modifies this`readPhase, this`headerBuf, this`headerBytesRead, this`payloadRemaining, this`done, this`readFailed
      ensures ReadValid() && readPhase != PassThroughRead
      ensures r.None? ==> readPhase != HaveData && readFailed == old(readFailed)
      ensures var length := old(HeaderLength(headerBuf));
              r == if length >= TDS_HEADER_SIZE then None else Some(Failed(InvalidLength(length)))
      ensures r.Some? ==> readFailed
      ensures r.Some? && !old(readFailed) ==> delivered == Unwrap(consumed + inner.incoming)
    {
      hide Stands, HeaderDone, Unwrap;
      var length := HeaderLength(headerBuf);
      if length < TDS_HEADER_SIZE {
        if !readFailed {
          ShortLengthEnds(s, last, headerBuf, inner.incoming);
        }
        readFailed := true;
        return Some(Failed(InvalidLength(length)));
      }
      var payloadLen := length - TDS_HEADER_SIZE;
      if payloadLen == 0 {
        if !readFailed {
          EmptyPacketStands(s, last, headerBuf, seq(TDS_HEADER_SIZE, _ => 0));
        }
        done := done + headerBuf;
        readPhase, headerBytesRead := DetectType, 0;
        headerBuf := seq(TDS_HEADER_SIZE, _ => 0);
        return None;
      }
      if !readFailed {
        PayloadStartStands(s, last, headerBuf);
      }
      payloadRemaining := payloadLen;
      readPhase := ReadingTdsPayload;
      return None;
    }

    /** One read into the payload buffer. An error leaves the buffer at the size it was grown to. */
    method ReadPayload(cap: nat) returns (r: Option<PollRead>)
      requires ReadValid() && readPhase == ReadingTdsPayload
      modifies this`readBuffer, this`readPhase, this`headerBuf, this`headerBytesRead, this`payloadRemaining
      modifies this`mode, this`consumed, this`delivered, this`done, this`readFailed, inner`incoming, inner`refusals
      ensures Step(r, cap)
      ensures r.None? ==> |inner.incoming| < |old(inner.incoming)|
      ensures r.Some? ==> !r.value.Panicked?
    {
      hide Stands, Unwrap, Shape;
      ghost var s := State();
      var currentLen := |readBuffer|;
      GrownShape(s, readBuffer + seq(payloadRemaining, _ => 0));
      readBuffer := readBuffer + seq(payloadRemaining, _ => 0);
      var more := inner.PollRead(payloadRemaining);
      match more {
        case ReadPending =>
          readBuffer := readBuffer[..currentLen];
          assert readBuffer == s.buffer;
          return Some(Pending);
        case ReadFailed =>
          readFailed := true;
          return Some(Failed(InnerError));
        case ReadReady(data) =>
          if data == [] {
            if !readFailed {
              WireEnds(s, inner.incoming);
            }
            readFailed := true;
            return Some(Failed(UnexpectedEof));
          }
          Regroup(consumed, data, inner.incoming);
          readBuffer := readBuffer[..currentLen];
          assert readBuffer == s.buffer;
          TakePayload(data);
          return None;
      }
    }

    /** Appends a piece of the payload; the last piece completes the packet. */
    method TakePayload(data: seq<byte>)
      requires ReadValid() && readPhase == ReadingTdsPayload && 0 < |data| <= payloadRemaining
      modifies this`readBuffer, this`readPhase, this`payloadRemaining, this`consumed, this`done
      ensures ReadValid() && consumed == old(consumed) + data && readPhase != PassThroughRead
    {
      hide Stands, Unwrap;
      ghost var s := State();
      readBuffer := readBuffer + data;
      payloadRemaining := payloadRemaining - |data|;
      consumed := consumed + data;
      if payloadRemaining == 0 {
        if !readFailed {
          PayloadDoneStands(s, data);
        }
        done := done + (headerBuf + readBuffer);
        readPhase := HaveData;
      } else if !readFailed {
        PayloadMoreStands(s, data);
      }
    }

    /** Raw reads straight from the socket. */
    method ForwardRead(cap: nat) returns (r: PollRead)
      requires ReadValid() && readPhase == PassThroughRead
      modifies this`consumed, this`delivered, this`readFailed, inner`incoming, inner`refusals
      ensures Step(Some(r), cap) && !r.Panicked?
    {
      hide Stands, Unwrap;
      ghost var s := State();
      var more := inner.PollRead(cap);
      match more {
        case ReadPending => r := Pending;
        case ReadFailed => readFailed := true; r := Failed(InnerError);
        case ReadReady(data) =>
          if !readFailed {
            ForwardStands(s, data);
          }
          Regroup(consumed, data, inner.incoming);
          consumed := consumed + data;
          delivered := delivered + data;
          r := Delivered(data);
      }
    }

    /** The pass-through and buffered phases, which always answer, and the drained buffer, which does not. */
    method ReadSettled(cap: nat) returns (r: Option<PollRead>)
      requires ReadValid() && (readPhase == PassThroughRead || readPhase == HaveData)
      modifies this`readBuffer, this`readPhase, this`headerBuf, this`headerBytesRead, this`payloadRemaining
      modifies this`mode, this`consumed, this`delivered, this`done, this`readFailed, inner`incoming, inner`refusals
      ensures Step(r, cap)
      ensures r.None? ==>
                old(readPhase) == HaveData && readPhase == DetectType && |inner.incoming| == |old(inner.incoming)|
      ensures r.Some? ==> !r.value.Panicked?
    {
      hide Stands, Unwrap;
      ghost var s := State();
      if readPhase == PassThroughRead && readBuffer != [] {
        var n := if cap < |readBuffer| then cap else |readBuffer|;
        r := Some(Delivered(readBuffer[..n]));
        assert readFailed by {
          PassThroughBufferEmpty(s);
        }
        delivered := delivered + readBuffer[..n];
        readBuffer := readBuffer[n..];
      } else if readPhase == PassThroughRead {
        var d := ForwardRead(cap);
        r := Some(d);
      } else if readBuffer == [] {
        if !readFailed {
          DrainedStands(s, seq(TDS_HEADER_SIZE, _ => 0));
        }
        readPhase, headerBytesRead := DetectType, 0;
        headerBuf := seq(TDS_HEADER_SIZE, _ => 0);
        r := None;
      } else {
        var d := DeliverBuffered(cap);
        r := Some(d);
      }
    }

    /** One turn of the read loop. */
    method ReadStep(cap: nat) returns (r: Option<PollRead>)
      requires ReadValid()
      modifies this`readBuffer, this`readPhase, this`headerBuf, this`headerBytesRead, this`payloadRemaining
      modifies this`mode, this`consumed, this`delivered, this`done, this`readFailed, inner`incoming, inner`refusals
      ensures Step(r, cap)
      ensures r.None? ==>
                || |inner.incoming| < |old(inner.incoming)|
                || (|inner.incoming| == |old(inner.incoming)| && old(readPhase) == HaveData && readPhase == DetectType)
    {
      hide Stands, Shape, Unwrap;
      if readPhase == PassThroughRead || readPhase == HaveData {
        r := ReadSettled(cap);
      } else if readPhase == DetectType {
        r := Detect(cap);
      } else if readPhase == ReadingTdsHeader {
        r := ReadHeader(cap);
      } else {
        r := ReadPayload(cap);
      }
    }

    /** The write invariant survives anything that leaves the write side alone, also the end of the handshake. */
    twostate lemma ReadingKeepsWrites()
      requires old(WriteValid()) && (mode == old(mode) || mode == PassThrough) && inner.written == old(inner.written)
      requires unchanged(this`writePhase, this`writeBuffer, this`writeBytesWritten, this`writePayloadLen, this`packetId)
      requires unchanged(this`writeFailed, this`accepted, this`current, this`rawOut)
      ensures WriteValid()
    {
      hide Frame, Frames;
    }

    /** `poll_read` with a caller buffer of `cap` bytes. The loop ends because every way round it either
        takes bytes from the socket or leaves the drained-buffer state. */
    method PollReadBytes(cap: nat) returns (r: PollRead)
      requires ReadValid()
      modifies this`readBuffer, this`readPhase, this`headerBuf, this`headerBytesRead, this`payloadRemaining
      modifies this`mode, this`consumed, this`delivered, this`done, this`readFailed, inner`incoming, inner`refusals
      ensures ReadValid() && (old(mode) == PassThrough ==> mode == PassThrough)
      ensures old(WriteValid()) ==> WriteValid()
      ensures old(consumed) <= consumed && consumed + inner.incoming == old(consumed + inner.incoming)
      ensures delivered == old(delivered) + (if r.Delivered? then r.data else [])
      ensures r.Delivered? ==> |r.data| <= cap
      ensures r.Panicked? <==> cap == 0 && old(readPhase) != PassThroughRead && readPhase == PassThroughRead
      ensures old(readPhase) == PassThroughRead ==> readPhase == PassThroughRead
      ensures readFailed <==> old(readFailed) || r.Failed? || r.Panicked?
      ensures inner.refusals == Counted(old(inner.refusals), r.Pending?, r == Failed(InnerError))
      ensures r == Failed(UnexpectedEof) ==> inner.incoming == []
      ensures r.Failed? && r.error.InvalidLength? ==> r.error.length < TDS_HEADER_SIZE
      ensures r == Delivered([]) ==> cap == 0 || RawEnd()
      ensures EndsWire(r) && !old(readFailed) ==> delivered == Unwrap(consumed + inner.incoming)
      ensures !readFailed ==>
                && delivered + Buffered(State()) == Unwrap(consumed)
                && delivered <= Unwrap(consumed + inner.incoming)
    {
      hide Stands, Unwrap, Shape, WriteValid;
      while true
        invariant ReadValid() && (old(mode) == PassThrough ==> mode == PassThrough)
        invariant old(consumed) <= consumed && consumed + inner.incoming == old(consumed + inner.incoming)
        invariant delivered == old(delivered) && readFailed == old(readFailed) && inner.refusals == old(inner.refusals)
        invariant readPhase == PassThroughRead <==> old(readPhase) == PassThroughRead
        decreases |inner.incoming|, if readPhase == HaveData then 1 else 0
      {
        var step := ReadStep(cap);
        assert delivered + [] == delivered;
        if step.Some? {
          r := step.value;
          if !readFailed {
            Refines(State(), inner.incoming);
          }
          if old(WriteValid()) {
            ReadingKeepsWrites();
          }
          return;
        }
      }
    }

    /** Polls with buffers of the given sizes until the stream ends. Whatever the fragmentation and the sizes,
        a reader that got to the end of a wire has delivered all of its unwrapping; it stops before only when
        the socket breaks; and polled with room more often than there are bytes to deliver and blocked polls,
        it gets there. */
    method PollAll(caps: seq<nat>) returns (end: Option<PollRead>)
      requires ReadValid() && !readFailed
      modifies this`readBuffer, this`readPhase, this`headerBuf, this`headerBytesRead, this`payloadRemaining
      modifies this`mode, this`consumed, this`delivered, this`done, this`readFailed, inner`incoming, inner`refusals
      ensures ReadValid() && consumed + inner.incoming == old(consumed + inner.incoming)
      ensures end.None? ==> !readFailed
      ensures end.Some? ==> end.value.Failed? || end.value.Panicked? || (end.value == Delivered([]) && RawEnd())
      ensures end == Some(Panicked) ==> 0 in caps && old(readPhase) != PassThroughRead && RawPhase()
      ensures end == Some(Failed(InnerError)) <==> inner.refusals.broken > old(inner.refusals.broken)
      ensures old(delivered) <= delivered && inner.refusals.blocked >= old(inner.refusals.blocked)
      ensures end.None? ==>
                |old(delivered)| + Roomy(caps) <= |delivered| + inner.refusals.blocked - old(inner.refusals.blocked)
      ensures var all := Unwrap(old(consumed + inner.incoming));
              && delivered <= all && (Complete(end) ==> delivered == all)
              && (0 !in caps && inner.refusals.broken == old(inner.refusals.broken)
                  && |old(delivered)| + |caps| > |all| + inner.refusals.blocked - old(inner.refusals.blocked) ==>
                    Complete(end) && delivered == all)
    {
      hide Stands, Unwrap, Shape;
      ghost var all := Unwrap(consumed + inner.incoming);
      Refines(State(), inner.incoming);
      for i := 0 to |caps|
        invariant ReadValid() && !readFailed && consumed + inner.incoming == old(consumed + inner.incoming)
        invariant old(delivered) <= delivered <= all && inner.refusals.broken == old(inner.refusals.broken)
        invariant inner.refusals.blocked >= old(inner.refusals.blocked)
        invariant old(RawPhase()) ==> RawPhase()
        invariant |old(delivered)| + Roomy(caps[..i])
               <= |delivered| + inner.refusals.blocked - old(inner.refusals.blocked)
      {
        assert caps[..i + 1] == caps[..i] + [caps[i]];
        RoomySnoc(caps[..i], caps[i]);
        var r := PollReadBytes(caps[i]);
        if r.Failed? || r.Panicked? {
          return Some(r);
        }
        if r == Delivered([]) && caps[i] > 0 {
          assert consumed + inner.incoming == consumed;
          assert delivered + [] == delivered;
          return Some(r);
        }
      }
      assert caps[..|caps|] == caps;
      AllRoomy(caps);
      return None;
    }

    /** The wire of an intact writer unwraps to the accepted buffers in order, then the raw output. */
    lemma WrittenUnwraps()
      requires WriteValid() && !writeFailed && writePhase == Idle
      requires forall i :: 0 <= i < |accepted| ==> |accepted[i]| <= MAX_PAYLOAD
      ensures Unwrap(inner.written) == Flatten(accepted) + Unwrap(rawOut)
    {
      hide Unwrap, Frames, Frame;
      assert Frames(accepted, 1) + [] == Frames(accepted, 1);
      UnwrapFrames(accepted, 1, rawOut);
    }

    /** The closed loop: a fresh reader over what a writer put on the wire, polled to its end, delivers the
        accepted buffers in order, then the reading of the raw output. */
    static method Loopback(writer: TdsTlsWrapper, caps: seq<nat>) returns (reader: TdsTlsWrapper, end: Option<PollRead>)
      requires writer.WriteValid() && !writer.writeFailed && writer.writePhase == Idle
      requires forall i :: 0 <= i < |writer.accepted| ==> |writer.accepted[i]| <= MAX_PAYLOAD
      ensures fresh(reader) && reader.ReadValid() && fresh(reader.inner)
      ensures var all := Flatten(writer.accepted) + Unwrap(writer.rawOut);
              && reader.delivered <= all && (Complete(end) ==> reader.delivered == all)
              && (end.None? ==> Roomy(caps) <= |reader.delivered| + reader.inner.refusals.blocked)
              && (0 !in caps && reader.inner.refusals.broken == 0
                  && |caps| > |all| + reader.inner.refusals.blocked ==>
                    Complete(end) && reader.delivered == all)
      ensures end == Some(Failed(InnerError)) <==> reader.inner.refusals.broken > 0
      ensures end == Some(Panicked) ==> 0 in caps && reader.readPhase == PassThroughRead
      ensures end.Some? ==>
                end.value.Failed? || end.value.Panicked? || (end.value == Delivered([]) && reader.RawEnd())
    {
      hide Unwrap, Stands, Shape;
      var stream := new TcpStream(writer.inner.written);
      reader := new TdsTlsWrapper(stream);
      assert [] + stream.incoming == stream.incoming;
      end := reader.PollAll(caps);
      writer.WrittenUnwraps();
    }

    /** Sends the buffers one after another, polling again while the socket is blocked. All of them go out
        exactly when the socket never breaks and is blocked at most `patience` times. */
    method Send(bufs: seq<seq<byte>>, patience: nat) returns (sent: bool)
      requires WriteValid() && mode == Handshake && writePhase == Idle && !writeFailed
      modifies this`writePhase, this`writeBuffer, this`writeBytesWritten, this`writePayloadLen, this`packetId
      modifies this`writeFailed, this`accepted, this`current, this`rawOut, inner`written, inner`refusals
      ensures WriteValid()
      ensures sent ==> !writeFailed && writePhase == Idle && accepted == old(accepted) + bufs
      ensures sent <==> Patient(patience)
    {
      hide WriteValid, ReadValid;
      var left := patience;
      for i := 0 to |bufs|
        invariant WriteValid() && writePhase == Idle && !writeFailed && accepted == old(accepted) + bufs[..i]
        invariant inner.refusals.blocked + left == old(inner.refusals.blocked) + patience
        invariant inner.refusals.broken == old(inner.refusals.broken)
      {
        assert bufs[..i + 1] == bufs[..i] + [bufs[i]];
        sent, left := SendOne(bufs[i], left);
        if !sent {
          return false;
        }
      }
      assert bufs[..|bufs|] == bufs;
      return true;
    }

    method SendOne(buf: seq<byte>, patience: nat) returns (sent: bool, left: nat)
      requires WriteValid() && mode == Handshake && writePhase == Idle && !writeFailed
      modifies this`writePhase, this`writeBuffer, this`writeBytesWritten, this`writePayloadLen, this`packetId
      modifies this`writeFailed, this`accepted, this`current, this`rawOut, inner`written, inner`refusals
      ensures WriteValid()
      ensures sent ==> !writeFailed && writePhase == Idle && accepted == old(accepted) + [buf]
      ensures sent <==> Patient(patience)
      ensures sent ==> inner.refusals.blocked + left == old(inner.refusals.blocked) + patience
      ensures inner.refusals.broken >= old(inner.refusals.broken)
    {
      hide WriteValid, ReadValid;
      left := patience;
      var r := PollWriteBytes(buf);
      while r.WriteBlocked? && left > 0
        invariant WriteValid() && accepted == old(accepted) + (if r.Accepted? then [buf] else [])
        invariant writeFailed <==> r.WriteBroken?
        invariant if r.Accepted? then writePhase == Idle else r.WriteBlocked? ==>
                  writePhase == Writing && current == buf
        invariant inner.refusals
               == Counted(old(inner.refusals).(blocked := old(inner.refusals.blocked) + patience - left),
                          r.WriteBlocked?, r.WriteBroken?)
        invariant left <= patience
        decreases left
      {
        left := left - 1;
        r := PollWriteBytes(buf);
      }
      sent := r.Accepted?;
    }

    /** The socket has not been broken since, nor blocked more often than that. */
    twostate predicate Patient(patience: nat)
      reads this, inner
    {
      && inner.refusals.broken <= old(inner.refusals.broken)
      && inner.refusals.blocked <= old(inner.refusals.blocked) + patience
    }

    /** End to end over two sockets: what one side sends is what the other side delivers. Only a broken socket,
        too many blocked polls or too few reads keep it from getting there. */
    static method Exchange(bufs: seq<seq<byte>>, patience: nat, caps: seq<nat>)
      returns (sent: bool, sender: TdsTlsWrapper, reader: TdsTlsWrapper, end: Option<PollRead>)
      requires forall i :: 0 <= i < |bufs| ==> |bufs[i]| <= MAX_PAYLOAD
      ensures fresh(sender) && fresh(reader) && fresh(sender.inner) && fresh(reader.inner)
      ensures sent <==> sender.inner.refusals.broken == 0 && sender.inner.refusals.blocked <= patience
      ensures sent ==> sender.accepted == bufs && sender.inner.written == Frames(bufs, 1)
      ensures sent ==> reader.delivered <= Flatten(bufs) && (Complete(end) ==> reader.delivered == Flatten(bufs))
      ensures sent ==> (end == Some(Failed(InnerError)) <==> reader.inner.refusals.broken > 0)
      ensures sent && end.None? ==> Roomy(caps) <= |reader.delivered| + reader.inner.refusals.blocked
      ensures sent && 0 !in caps && reader.inner.refusals.broken == 0
              && |caps| > |Flatten(bufs)| + reader.inner.refusals.blocked ==>
                Complete(end) && reader.delivered == Flatten(bufs)
    {
      hide Flatten, Unwrap;
      var stream := new TcpStream([]);
      sender := new TdsTlsWrapper(stream);
      sent := sender.Send(bufs, patience);
      if !sent {
        return false, sender, sender, None;
      }
      assert [] + bufs == bufs;
      assert Frames(bufs, 1) + [] + [] == Frames(bufs, 1);
      reader, end := Loopback(sender, caps);
      UnwrapNothing();
      assert Flatten(bufs) + [] == Flatten(bufs);
    }

    /** `poll_write`. A packet once started is written to its end, whatever buffer later polls pass,
        unless the mode changes under it. */
    method PollWriteBytes(buf: seq<byte>) returns (r: PollWrite)
      requires WriteValid()
      modifies this`writePhase, this`writeBuffer, this`writeBytesWritten, this`writePayloadLen, this`packetId
      modifies this`writeFailed, this`accepted, this`current, this`rawOut, inner`written, inner`refusals
      ensures WriteValid() && old(inner.written) <= inner.written
      ensures old(ReadValid()) ==> ReadValid()
      ensures writeFailed <==> old(writeFailed) || (r.WriteBroken? && mode == Handshake)
      ensures inner.refusals == Counted(old(inner.refusals), r.WriteBlocked?, r.WriteBroken?)
      ensures accepted == old(accepted) + (if mode == Handshake && r.Accepted? then [current] else [])
      ensures mode == Handshake ==> current == if old(writePhase) == Idle then buf else old(current)
      ensures mode == Handshake && r.Accepted? ==> r.n == |current| && writePhase == Idle
      ensures mode == Handshake && r.WriteBlocked? ==> writePhase == Writing
      ensures mode == PassThrough && r.Accepted? ==> r.n <= |buf| && (buf != [] ==> r.n > 0)
      ensures mode == PassThrough ==> rawOut == old(rawOut) + (if r.Accepted? then buf[..r.n] else [])
    {
      hide Frame, Frames, ReadValid;
      if mode == PassThrough {
        r := WriteRaw(buf);
        return;
      }
      if writePhase == Idle {
        StartPacket(buf);
      }
      r := WritePacket();
    }

    /** After the handshake: straight to the socket. */
    method WriteRaw(buf: seq<byte>) returns (r: PollWrite)
      requires WriteValid() && mode == PassThrough
      modifies this`rawOut, inner`written, inner`refusals
      ensures WriteValid() && old(inner.written) <= inner.written
      ensures r.Accepted? ==> r.n <= |buf| && (buf != [] ==> r.n > 0)
      ensures rawOut == old(rawOut) + (if r.Accepted? then buf[..r.n] else [])
      ensures inner.refusals == Counted(old(inner.refusals), r.WriteBlocked?, r.WriteBroken?)
    {
      hide Frames, Frame;
      var w := inner.PollWrite(buf);
      match w {
        case WritePending => return WriteBlocked;
        case WriteFailed => return WriteBroken;
        case WriteReady(n) =>
          Regroup(Frames(accepted, 1) + InFlight(), rawOut, buf[..n]);
          rawOut := rawOut + buf[..n];
          return Accepted(n);
      }
    }

    method BuildFrame(buf: seq<byte>, id: byte) returns (frame: seq<byte>)
      ensures frame == Frame(buf, id) && |frame| == TDS_HEADER_SIZE + |buf|
    {
      hide Be16;
      frame := [TDS_TABULAR_RESULT];
      frame := frame + [0x01];
      frame := frame + Be16(|buf| + TDS_HEADER_SIZE);
      frame := frame + Be16(0);
      frame := frame + [id];
      frame := frame + [0];
      frame := frame + buf;
    }

    /** Frames a new buffer. */
    method StartPacket(buf: seq<byte>)
      requires WriteValid() && mode == Handshake && writePhase == Idle
      modifies this`writePhase, this`writeBuffer, this`writeBytesWritten, this`writePayloadLen, this`packetId
      modifies this`current
      ensures WriteValid() && writePhase == Writing && current == buf
    {
      hide Frames, Frame, NextId;
      writeBuffer := BuildFrame(buf, packetId);
      NextIdAfter(|accepted|);
      packetId := NextId(packetId);
      writeBytesWritten := 0;
      writePayloadLen := |buf|;
      writePhase := Writing;
      current := buf;
    }

    lemma Progress(frames: seq<byte>, packet: seq<byte>, k: nat, n: nat)
      requires k + n <= |packet|
      ensures frames + packet[..k] + [] + packet[k..][..n] == frames + packet[..k + n] + []
    {
      assert packet[..k + n] == packet[..k] + packet[k..][..n];
    }

    lemma PacketOut(frames: seq<byte>, packet: seq<byte>)
      ensures frames + packet[..|packet|] + [] == frames + packet + [] + []
    {
      assert packet[..|packet|] == packet;
    }

    /** The write loop: pushes the rest of the packet until it is out, blocked or broken. */
    method WritePacket() returns (r: PollWrite)
      requires WriteValid() && mode == Handshake && writePhase == Writing
      modifies this`writePhase, this`writeBuffer, this`writeBytesWritten, this`writeFailed, this`accepted
      modifies inner`written, inner`refusals
      ensures WriteValid() && old(inner.written) <= inner.written
      ensures writeFailed <==> old(writeFailed) || r.WriteBroken?
      ensures r.Accepted? ==> writePhase == Idle && accepted == old(accepted) + [current] && r.n == |current|
      ensures !r.Accepted? ==> accepted == old(accepted)
      ensures r.WriteBlocked? ==> writePhase == Writing
      ensures inner.refusals == Counted(old(inner.refusals), r.WriteBlocked?, r.WriteBroken?)
    {
      hide Frame, Frames;
      while true
        invariant WriteValid() && writePhase == Writing
        invariant old(inner.written) <= inner.written
        invariant unchanged(this`writeBuffer, this`accepted, this`writeFailed) && inner.refusals == old(inner.refusals)
        decreases |writeBuffer| - writeBytesWritten
      {
        var remaining := writeBuffer[writeBytesWritten..];
        var w := inner.PollWrite(remaining);
        match w {
          case WritePending => return WriteBlocked;
          case WriteFailed =>
            writePhase, writeBuffer, writeBytesWritten := Idle, [], 0;
            writeFailed := true;
            return WriteBroken;
          case WriteReady(n) =>
            Progress(Frames(accepted, 1), writeBuffer, writeBytesWritten, n);
            writeBytesWritten := writeBytesWritten + n;
            if writeBytesWritten >= |writeBuffer| {
              r := Accepted(writePayloadLen);
              FramesSnoc(accepted, current, 1);
              PacketOut(Frames(accepted, 1), writeBuffer);
              writePhase := Idle;
              writeBuffer, writeBytesWritten := [], 0;
              accepted := accepted + [current];
              return;
            }
        }
      }
    }
  }
}
