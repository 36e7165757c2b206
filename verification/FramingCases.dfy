/** Concrete client streams on which the mock server's framing does not do what its callers expect. */
module FramingCases {
  import opened ByteCodec
  import opened Packets
  import opened ConnectionProcessors

  /** A packet without a body. */
  function Bare(t: PacketType): Packet { Packet(Header(t, 1, PACKET_HEADER_SIZE, 0, 1, 0), []) }

  /** A PreLogin packet and an Attention packet in one read: the first is ignored, and the second, although
      complete, is not answered. In two reads both are taken. */
  lemma IgnoredHidesRest()
    ensures var first, second := PacketBytes(Bare(PreLogin)), PacketBytes(Bare(Attention));
            && WellFramed(first + second)
            && MessagesOf(first + second) == [Message(PreLogin, []), Message(Attention, [])]
            && Reached([first + second]) == 1 && Reached([first, second]) == 2
  {
    var a, b := Bare(PreLogin), Bare(Attention);
    var first, second := PacketBytes(a), PacketBytes(b);
    var ms := [Message(PreLogin, []), Message(Attention, [])];
    Two(a, b);
    One(a);
    hide PacketBytes, MessagesOf, WellFramed;
    Flat(first, second);
    assert Reach(ms, 0) == 1;
    assert Reached([]) == 0;
    var whole, halves, half := [first + second], [first, second], [first];
    var none: seq<seq<byte>> := [];
    assert whole[..0] == none && half[..0] == none && halves[..1] == half;
    assert Reached(half) == Reach(ms[..1], 0) == 1;
  }

  lemma One(a: Packet)
    requires PacketOk(a) && a.header.ptype != SqlBatch
    ensures MessagesOf(PacketBytes(a)) == [Message(a.header.ptype, a.body)]
  {
    StreamRoundTrip([a]);
    assert [a][1..] == [] && StreamBytes([a]) == PacketBytes(a) + [];
    assert PacketBytes(a) + [] == PacketBytes(a);
    assert Messages(None, [a]) == MessageAt(None, a) + Messages(None, []);
  }

  lemma Two(a: Packet, b: Packet)
    requires PacketOk(a) && PacketOk(b) && a.header.ptype != SqlBatch && b.header.ptype != SqlBatch
    ensures WellFramed(PacketBytes(a) + PacketBytes(b))
    ensures MessagesOf(PacketBytes(a) + PacketBytes(b))
         == [Message(a.header.ptype, a.body), Message(b.header.ptype, b.body)]
  {
    StreamRoundTrip([a, b]);
    assert [a, b][1..] == [b] && [b][1..] == [];
    assert StreamBytes([b]) == PacketBytes(b) + [];
    assert PacketBytes(b) + [] == PacketBytes(b);
    assert StreamBytes([a, b]) == PacketBytes(a) + PacketBytes(b);
    assert Messages(None, [b]) == MessageAt(None, b) + Messages(None, []);
    assert Messages(None, [a, b]) == MessageAt(None, a) + Messages(None, [b]);
  }

  lemma Flat(a: seq<byte>, b: seq<byte>)
    ensures Flatten([a + b]) == a + b && Flatten([a]) == a && Flatten([a, b]) == a + b
  {
    assert [a + b][1..] == [] && [a][1..] == [] && [a, b][1..] == [b] && [b][1..] == [];
    assert a + b + [] == a + b && a + [] == a && b + [] == b;
    assert Flatten([b]) == b + [];
  }

  // Short headers. The bytes are type, status, length, process id, packet id, window.

  /** A batch fragment, then a batch header that declares four bytes: its body is sliced off beyond its end. */
  lemma ShortBatchPanics()
    ensures PanicsOn([1, 0, 0, 8, 0, 0, 1, 0, 1, 1, 0, 4, 0, 0, 2, 0], false)
    ensures !PanicsOn([1, 1, 0, 4, 0, 0, 2, 0], false)
  {
    var stream: seq<byte> := [1, 0, 0, 8, 0, 0, 1, 0, 1, 1, 0, 4, 0, 0, 2, 0];
    var rest: seq<byte> := [1, 1, 0, 4, 0, 0, 2, 0];
    assert stream[8..] == rest;
    assert ParseHeader(stream) == Some(Header(SqlBatch, 0, 8, 0, 1, 0));
    assert ParseHeader(rest) == Some(Header(SqlBatch, 1, 4, 0, 2, 0));
    assert PanicsOn(rest, true);
  }

  /** An unfinished batch header that declares no bytes: the loop meets it again for ever. */
  lemma ZeroBatchLoops(c: Config, phase: LoginPhase)
    ensures StuckOn([1, 0, 0, 0, 0, 0, 1, 0]) && DrainEnd(c, phase, [1, 0, 0, 0, 0, 0, 1, 0], []) == Loops
  {
    assert ParseHeader([1, 0, 0, 0, 0, 0, 1, 0]) == Some(Header(SqlBatch, 0, 0, 0, 1, 0));
    RepeatsLoop(c, phase, [1, 0, 0, 0, 0, 0, 1, 0], []);
  }

  /** An Attention header that declares no bytes is complete, and is still there after it is answered. */
  lemma ZeroAttentionRepeats(c: Config, phase: LoginPhase)
    ensures AttentionAtFront([6, 1, 0, 0, 0, 0, 1, 0]) && DrainEnd(c, phase, [6, 1, 0, 0, 0, 0, 1, 0], []) == Loops
  {
    assert ParseHeader([6, 1, 0, 0, 0, 0, 1, 0]) == Some(Header(Attention, 1, 0, 0, 1, 0));
    RepeatsLoop(c, phase, [6, 1, 0, 0, 0, 0, 1, 0], []);
  }

  /** An Attention header that declares four bytes neither panics nor loops: it is taken, and the second half
      of the header stays in the buffer as the start of the next one. */
  lemma ShortAttentionLeavesRest(c: Config, phase: LoginPhase)
    ensures var stream := [6, 1, 0, 4, 0, 0, 1, 0];
            !WellFramed(stream) && AttentionAtFront(stream) && DrainEnd(c, phase, stream, []) == Waits
  {
    var stream: seq<byte> := [6, 1, 0, 4, 0, 0, 1, 0];
    assert ParseHeader(stream) == Some(Header(Attention, 1, 4, 0, 1, 0));
    assert DrainEnd(c, phase, stream[4..], []) == Waits;
  }

  /** A login header that declares four bytes gets past the framing, and its handling panics. */
  lemma ShortLoginPanics(c: Config, phase: LoginPhase)
    ensures var stream := [16, 1, 0, 4, 0, 0, 1, 0];
            !PanicsOn(stream, false) && !StuckOn(stream) && DrainEnd(c, phase, stream, []) == Panics
  {
    assert ParseHeader([16, 1, 0, 4, 0, 0, 1, 0]) == Some(Header(Login7, 1, 4, 0, 1, 0));
  }

  /** A request header that declares four bytes panics exactly when the client is logged in; before that it is
      refused, and half of the header stays in the buffer. */
  lemma ShortRequestPanicsIff(c: Config, phase: LoginPhase)
    ensures var end := DrainEnd(c, phase, [3, 1, 0, 4, 0, 0, 1, 0], []);
            end == if phase == LoggedIn then Panics else Waits
  {
    var stream: seq<byte> := [3, 1, 0, 4, 0, 0, 1, 0];
    assert ParseHeader(stream) == Some(Header(RpcRequest, 1, 4, 0, 1, 0));
    assert DrainEnd(c, phase, stream[4..], []) == Waits;
  }
}
