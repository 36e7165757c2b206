/** `ConnectionProcessor`: framing, batch reassembly and the login state machine of the mock server. */
module ConnectionProcessors {
  import opened ByteCodec
  import opened SqlText
  import opened Packets
  import opened Walkers

  datatype ErrorKind = NotAuthenticated | UnexpectedToken | BadToken | BadBatch

  /** What the server answers to a message. */
  datatype Reply =
    | LoginAck(fedAuth: bool) | Routed | Challenge
    | RegistryAnswer | EmptyDone | TransactionDone(request: u16) | AttentionAck | WithdrawnAck
    | Error(kind: ErrorKind)
    | Abandoned   // an Attention arrived while the answer was delayed
    | Dropped     // the connection closed while the answer was delayed
    | Ignored

  datatype Entry = Entry(message: Message, reply: Reply)

  // Login state over the log of answered messages

  datatype LoginPhase = LoggedOut | Challenged | LoggedIn

  function PhaseAfter(phase: LoginPhase, reply: Reply): LoginPhase {
    match reply
    case LoginAck(_) => LoggedIn
    case Routed => LoggedIn
    case Challenge => Challenged
    case Error(BadToken) => LoggedOut
    case _ => phase
  }

  function Phase(log: seq<Entry>): LoginPhase {
    if log == [] then LoggedOut else PhaseAfter(Phase(log[..|log| - 1]), log[|log| - 1].reply)
  }

  predicate Is(m: Message, t: PacketType) { m.Message? && m.ptype == t }

  /** What the operator configured: a redirection, which batches and requests have an answer, and which
      answers are held back for a while. */
  datatype Config =
    Config(redirects: bool, batchRegistered: Sql -> bool, rpcRegistered: seq<byte> -> bool, delayed: Message -> bool)

  ghost predicate Undelayed(c: Config) { forall m: Message :: !c.delayed(m) }

  const TM_BEGIN_XACT := 5
  const TM_COMMIT_XACT := 7
  const TM_ROLLBACK_XACT := 8

  function RequestType(body: seq<byte>): u16 {
    var r := TransactionRequest(body);
    if r.Some? then r.value else 0
  }

  function LoginReply(c: Config, info: AuthInfo): Reply {
    if c.redirects then Routed
    else if info.hasFedAuth && info.token.None? then Challenge
    else LoginAck(info.hasFedAuth)
  }

  function QueryReply(c: Config, t: PacketType, body: seq<byte>): Reply {
    if t == SqlBatch then
      var text := ParseSqlBatch(body);
      if !text.Text? then Error(BadBatch) else if c.batchRegistered(text.sql) then RegistryAnswer else EmptyDone
    else if c.rpcRegistered(body) then RegistryAnswer else EmptyDone
  }

  /** The answer a message earns, given how the latest login exchange stands. */
  function ReplyFor(c: Config, phase: LoginPhase, m: Message): Reply {
    match m
    case Withdrawn => WithdrawnAck
    case Message(t, body) =>
      if t == Login7 then LoginReply(c, AuthOf(body))
      else if t == FedAuthToken then
        if phase != Challenged then Error(UnexpectedToken)
        else if ParseFedAuthToken(body).Some? then LoginAck(true) else Error(BadToken)
      else if t == SqlBatch || t == RpcRequest then
        if phase != LoggedIn then Error(NotAuthenticated) else QueryReply(c, t, body)
      else if t == TransactionManager then TransactionDone(RequestType(body))
      else if t == Attention then AttentionAck
      else Ignored
  }

  /** The messages the server does not answer at all. */
  predicate IsIgnored(m: Message) { Is(m, PreLogin) || Is(m, TabularResult) }

  /** The messages whose answer looks for a delay. */
  predicate Delayable(c: Config, phase: LoginPhase, m: Message) {
    || Is(m, Login7)
    || (Is(m, RpcRequest) && phase == LoggedIn)
    || (Is(m, SqlBatch) && ReplyFor(c, phase, m) == RegistryAnswer)
    || (Is(m, TransactionManager) && RequestType(m.body) in {TM_BEGIN_XACT, TM_COMMIT_XACT, TM_ROLLBACK_XACT})
  }

  /** No message from `from` up to `to` is ignored. */
  ghost predicate NoneIgnored(ms: seq<Message>, from: nat, to: nat) {
    from <= to <= |ms| && forall k :: from <= k < to ==> !IsIgnored(ms[k])
  }

  /** Up to where a drain gets that starts at message `from`: through the first ignored one, if any. */
  function Reach(ms: seq<Message>, from: nat): (n: nat)
    requires from <= |ms|
    ensures from <= n <= |ms|
    decreases |ms| - from
  {
    if from == |ms| then from else if IsIgnored(ms[from]) then from + 1 else Reach(ms, from + 1)
  }

  lemma {:induction false} ReachIs(ms: seq<Message>, from: nat, to: nat)
    requires from <= to <= |ms|
    ensures NoneIgnored(ms, from, to) && to == |ms| ==> Reach(ms, from) == to
    ensures from < to && NoneIgnored(ms, from, to - 1) && IsIgnored(ms[to - 1]) ==> Reach(ms, from) == to
    decreases |ms| - from
  {
    if from < to {
      ReachIs(ms, from + 1, to);
    }
  }

  /** How many messages are answered without delays: each read is drained up to its first ignored message. */
  ghost function Reached(chunks: seq<seq<byte>>): (n: nat)
    ensures n <= |MessagesOf(Flatten(chunks))|
    decreases |chunks|
  {
    if chunks == [] then 0
    else
      var before := chunks[..|chunks| - 1];
      MessagesGrow(before, chunks[|chunks| - 1]);
      assert chunks == before + [chunks[|chunks| - 1]];
      Reach(MessagesOf(Flatten(chunks)), Reached(before))
  }

  lemma ReadNext(read: seq<seq<byte>>, chunks: seq<seq<byte>>)
    requires chunks != []
    ensures read + chunks == read + [chunks[0]] + chunks[1..]
    ensures Flatten(read + [chunks[0]]) == Flatten(read) + chunks[0]
    ensures Reached(read) <= |MessagesOf(Flatten(read + [chunks[0]]))|
    ensures Reached(read + [chunks[0]]) == Reach(MessagesOf(Flatten(read + [chunks[0]])), Reached(read))
  {
    hide Flatten, MessagesOf, Reach;
    FlattenSnoc(read, chunks[0]);
    MessagesGrow(read, chunks[0]);
    assert (read + [chunks[0]])[..|read|] == read;
  }

  /** All messages are answered exactly when the last read holds no ignored message before its last one,
      from where the reads before it got to. */
  lemma ReachedAllIff(chunks: seq<seq<byte>>)
    requires chunks != []
    ensures var all := MessagesOf(Flatten(chunks));
            var from := Reached(chunks[..|chunks| - 1]);
            Reached(chunks) == |all| <==> forall k :: from <= k < |all| - 1 ==> !IsIgnored(all[k])
  {
    hide MessagesOf, Flatten;
    var all, before := MessagesOf(Flatten(chunks)), chunks[..|chunks| - 1];
    MessagesGrow(before, chunks[|chunks| - 1]);
    assert chunks == before + [chunks[|chunks| - 1]];
    ReachEndIff(all, Reached(before));
  }

  lemma {:induction false} ReachEndIff(ms: seq<Message>, from: nat)
    requires from <= |ms|
    ensures Reach(ms, from) == |ms| <==> forall k :: from <= k < |ms| - 1 ==> !IsIgnored(ms[k])
    decreases |ms| - from
  {
    if from < |ms| {
      ReachEndIff(ms, from + 1);
    }
  }

  /** Messages received stay received. */
  lemma MessagesGrow(before: seq<seq<byte>>, read: seq<byte>)
    ensures MessagesOf(Flatten(before)) <= MessagesOf(Flatten(before + [read]))
  {
    hide Flatten;
    FlattenSnoc(before, read);
    MessagesPrefix(Flatten(before), read);
  }

  /** A message gets the answer it earns, unless the answer was held back and then lost to an Attention or
      a close. */
  ghost predicate Earned(c: Config, phase: LoginPhase, e: Entry) {
    || e.reply == ReplyFor(c, phase, e.message)
    || ((e.reply == Abandoned || e.reply == Dropped) && c.delayed(e.message) && Delayable(c, phase, e.message))
  }

  /** Ignored is exactly what ignored messages get. */
  lemma IgnoredIff(c: Config, phase: LoginPhase, e: Entry)
    requires Earned(c, phase, e) && e.reply != Abandoned && e.reply != Dropped
    ensures e.reply == Ignored <==> IsIgnored(e.message)
  {
    hide AuthOf, ParseSqlBatch;
  }

  ghost predicate AllEarned(c: Config, log: seq<Entry>) {
    forall i :: 0 <= i < |log| ==> Earned(c, Phase(log[..i]), log[i])
  }

  lemma AppendEarned(c: Config, log: seq<Entry>, e: Entry)
    requires AllEarned(c, log) && Earned(c, Phase(log), e)
    ensures AllEarned(c, log + [e]) && Phase(log + [e]) == PhaseAfter(Phase(log), e.reply)
  {
    hide Earned;
    var longer := log + [e];
    assert longer[..|log|] == log;
    forall i | 0 <= i < |longer| ensures Earned(c, Phase(longer[..i]), longer[i]) {
      assert i < |log| ==> longer[..i] == log[..i];
    }
  }

  /** Nothing was held back for so long that it was lost. */
  ghost predicate Uninterrupted(log: seq<Entry>) {
    forall i :: 0 <= i < |log| ==> log[i].reply != Abandoned && log[i].reply != Dropped
  }

  predicate DroppedAtEnd(log: seq<Entry>) { log != [] && log[|log| - 1].reply == Dropped }

  lemma PhaseSnoc(log: seq<Entry>, e: Entry)
    ensures Phase(log + [e]) == PhaseAfter(Phase(log), e.reply)
  {
    assert (log + [e])[..|log|] == log;
  }

  lemma NeverLost(c: Config, phase: LoginPhase, m: Message)
    ensures ReplyFor(c, phase, m) != Abandoned && ReplyFor(c, phase, m) != Dropped
  {
    hide AuthOf, ParseSqlBatch;
  }

  /** The conversation a sequence of messages leads to. */
  ghost function Answers(c: Config, ms: seq<Message>): seq<Entry> {
    if ms == [] then []
    else
      var n := |ms| - 1;
      var before := Answers(c, ms[..n]);
      before + [Entry(ms[n], ReplyFor(c, Phase(before), ms[n]))]
  }

  lemma EarnedFront(c: Config, log: seq<Entry>, n: nat)
    requires AllEarned(c, log) && n <= |log|
    ensures AllEarned(c, log[..n])
    ensures Uninterrupted(log) ==> Uninterrupted(log[..n])
  {
    hide Earned, Phase;
    assert forall i :: 0 <= i < n ==> log[..n][i] == log[i] && log[..n][..i] == log[..i];
  }

  /** An uninterrupted conversation is determined by the messages alone. */
  lemma {:induction false} AnswersDetermined(c: Config, log: seq<Entry>)
    requires AllEarned(c, log) && Uninterrupted(log)
    ensures log == Answers(c, MessagesIn(log))
    decreases |log|
  {
    hide ReplyFor, Phase;
    if log != [] {
      var n := |log| - 1;
      var before := log[..n];
      assert Earned(c, Phase(before), log[n]);
      EarnedFront(c, log, n);
      AnswersDetermined(c, before);
      assert MessagesIn(log)[..n] == MessagesIn(before);
      assert log == before + [log[n]];
    }
  }

  predicate Completes(e: Entry) { e.reply.LoginAck? || e.reply.Routed? }

  predicate Unsettles(e: Entry) { e.reply.Challenge? || e.reply == Error(BadToken) }

  predicate Resolves(e: Entry) { Completes(e) || e.reply == Error(BadToken) }

  /** Some login was completed, and no challenge was issued or failed since. */
  ghost predicate LoginStands(log: seq<Entry>) {
    exists j :: 0 <= j < |log| && Completes(log[j]) && forall k :: j < k < |log| ==> !Unsettles(log[k])
  }

  /** A challenge was issued, and no login was completed or token refused since. */
  ghost predicate ChallengeOpen(log: seq<Entry>) {
    exists j :: 0 <= j < |log| && log[j].reply.Challenge? && forall k :: j < k < |log| ==> !Resolves(log[k])
  }

  lemma {:induction false} LoggedInIff(log: seq<Entry>)
    ensures Phase(log) == LoggedIn <==> LoginStands(log)
    decreases |log|
  {
    if log != [] {
      var n := |log| - 1;
      var before := log[..n];
      LoggedInIff(before);
      if Completes(log[n]) {
        assert Phase(log) == LoggedIn;
      } else if !Unsettles(log[n]) {
        assert forall j :: 0 <= j < n ==> before[j] == log[j];
        if Phase(before) == LoggedIn {
          var j :| 0 <= j < n && Completes(before[j]) && forall k :: j < k < n ==> !Unsettles(before[k]);
          assert Completes(log[j]) && forall k :: j < k < |log| ==> !Unsettles(log[k]);
        }
      }
    }
  }

  lemma {:induction false} ChallengedIff(log: seq<Entry>)
    ensures Phase(log) == Challenged <==> ChallengeOpen(log)
    decreases |log|
  {
    if log != [] {
      var n := |log| - 1;
      var before := log[..n];
      ChallengedIff(before);
      assert forall j :: 0 <= j < n ==> before[j] == log[j];
      if !log[n].reply.Challenge? && !Resolves(log[n]) && Phase(before) == Challenged {
        var j :| 0 <= j < n && before[j].reply.Challenge? && forall k :: j < k < n ==> !Resolves(before[k]);
        assert log[j].reply.Challenge? && forall k :: j < k < |log| ==> !Resolves(log[k]);
      }
    }
  }

  /** Over any run: a registry answer only goes out while the latest login exchange stands completed, and
      a FedAuth token is only accepted for a challenge that is still open. */
  lemma AnswersNeedLogin(c: Config, log: seq<Entry>, i: nat)
    requires AllEarned(c, log) && i < |log|
    ensures log[i].reply.RegistryAnswer? ==> LoginStands(log[..i])
    ensures Is(log[i].message, FedAuthToken) && log[i].reply.LoginAck? ==> ChallengeOpen(log[..i])
  {
    hide LoginStands, ChallengeOpen, Phase;
    assert Earned(c, Phase(log[..i]), log[i]);
    LoggedInIff(log[..i]);
    ChallengedIff(log[..i]);
  }

  // Framing: what the buffer and the pending batch stand for

  datatype Framing =
    Framing(buffer: seq<byte>, pendingBatch: seq<byte>, taken: seq<byte>, packets: seq<Packet>, messages: seq<Message>)

  /** `taken` ends at a packet boundary and holds exactly `packets`. */
  ghost predicate Frontier(taken: seq<byte>, packets: seq<Packet>) {
    forall c: seq<byte> {:trigger PacketsOf(taken + c)} :: PacketsOf(taken + c) == packets + PacketsOf(c)
  }

  ghost predicate Faithful(taken: seq<byte>) {
    forall c: seq<byte> {:trigger WellFramed(taken + c)} :: WellFramed(taken + c) <==> WellFramed(c)
  }

  /** The pending buffer is the first header and the bodies of the batch so far. */
  ghost predicate PendingMatches(pendingBatch: seq<byte>, pending: Pending) {
    match pending
    case None => pendingBatch == []
    case Some(b) => |pendingBatch| >= PACKET_HEADER_SIZE && pendingBatch[PACKET_HEADER_SIZE..] == b
  }

  ghost predicate InStep(f: Framing) {
    && Frontier(f.taken, f.packets) && Faithful(f.taken)
    && f.messages == Messages(None, f.packets)
    && PendingMatches(f.pendingBatch, PendingAfter(None, f.packets))
  }

  lemma InStepInitially()
    ensures InStep(Framing([], [], [], [], []))
  {
    forall c: seq<byte> ensures PacketsOf([] + c) == [] + PacketsOf(c) && (WellFramed([] + c) <==> WellFramed(c)) {
      assert [] + c == c;
    }
  }

  lemma FrontierStep(taken: seq<byte>, packets: seq<Packet>, packet: seq<byte>, h: Header)
    requires Frontier(taken, packets) && Faithful(taken)
    requires ParseHeader(packet) == Some(h) && PACKET_HEADER_SIZE <= h.length == |packet|
    ensures Frontier(taken + packet, packets + [Packet(h, packet[PACKET_HEADER_SIZE..])]) && Faithful(taken + packet)
  {
    hide PacketsOf, WellFramed, ParseHeader;
    var p := Packet(h, packet[PACKET_HEADER_SIZE..]);
    forall c: seq<byte>
      ensures PacketsOf(taken + packet + c) == packets + [p] + PacketsOf(c)
      ensures WellFramed(taken + packet + c) <==> WellFramed(c)
    {
      assert taken + packet + c == taken + (packet + c);
      PacketsOfFront(packet, h, c);
      assert packet[PACKET_HEADER_SIZE..h.length] == packet[PACKET_HEADER_SIZE..];
      assert packet[h.length..] + c == c;
      assert packets + ([p] + PacketsOf(c)) == packets + [p] + PacketsOf(c);
    }
  }

  /** The complete packet at the front of a buffer, of the length its header declares. */
  ghost predicate AtFront(buffer: seq<byte>, h: Header) {
    ParseHeader(buffer) == Some(h) && PACKET_HEADER_SIZE <= h.length <= |buffer|
  }

  /** Data of a batch packet joined to the batch so far. */
  function Joined(pendingBatch: seq<byte>, packet: seq<byte>): seq<byte>
    requires |packet| >= PACKET_HEADER_SIZE
  {
    if pendingBatch == [] then packet else pendingBatch + packet[PACKET_HEADER_SIZE..]
  }

  /** The framing state behind one more packet, as the framing loop leaves it. */
  ghost function Took(f: Framing, h: Header): Framing
    requires AtFront(f.buffer, h)
  {
    var packet := f.buffer[..h.length];
    var p := Packet(h, packet[PACKET_HEADER_SIZE..]);
    Framing(f.buffer[h.length..],
            if IsFragment(p) then Joined(f.pendingBatch, packet) else [],
            f.taken + packet, f.packets + [p], f.messages + MessageAt(PendingAfter(None, f.packets), p))
  }

  lemma JoinedMatches(pendingBatch: seq<byte>, pending: Pending, packet: seq<byte>)
    requires PendingMatches(pendingBatch, pending) && |packet| >= PACKET_HEADER_SIZE
    ensures var j := Joined(pendingBatch, packet);
            |j| >= PACKET_HEADER_SIZE && j[PACKET_HEADER_SIZE..] == Got(pending) + packet[PACKET_HEADER_SIZE..]
  {
    var j := Joined(pendingBatch, packet);
    if pending.None? {
      assert [] + packet[PACKET_HEADER_SIZE..] == packet[PACKET_HEADER_SIZE..];
    } else {
      assert j[PACKET_HEADER_SIZE..] == pendingBatch[PACKET_HEADER_SIZE..] + packet[PACKET_HEADER_SIZE..];
    }
  }

  lemma TookInStep(f: Framing, h: Header)
    requires InStep(f) && AtFront(f.buffer, h)
    ensures InStep(Took(f, h))
    ensures Took(f, h).taken + Took(f, h).buffer == f.taken + f.buffer
  {
    hide Frontier, Faithful, MessageAt;
    var packet := f.buffer[..h.length];
    var p := Packet(h, packet[PACKET_HEADER_SIZE..]);
    FrontHeader(f.buffer, h);
    FrontierStep(f.taken, f.packets, packet, h);
    MessagesAppend(None, f.packets, [p]);
    var pending := PendingAfter(None, f.packets);
    assert [p][1..] == [];
    assert MessageAt(pending, p) + [] == MessageAt(pending, p);
    JoinedMatches(f.pendingBatch, pending, packet);
    assert f.taken + packet + f.buffer[h.length..] == f.taken + f.buffer;
  }

  lemma FrontHeader(buffer: seq<byte>, h: Header)
    requires AtFront(buffer, h)
    ensures ParseHeader(buffer[..h.length]) == Some(h)
  {
    HeaderPrefix(buffer[..h.length], buffer[h.length..]);
    assert buffer == buffer[..h.length] + buffer[h.length..];
  }

  /** Messages taken so far are a prefix of those of any stream that starts with the bytes received, and
      all of those received once no complete packet is left. */
  lemma TakenMessages(f: Framing, more: seq<byte>)
    requires InStep(f)
    ensures f.messages <= MessagesOf(f.taken + f.buffer + more)
    ensures PacketsOf(f.buffer) == [] ==> f.messages == MessagesOf(f.taken + f.buffer)
  {
    hide PacketsOf, Faithful, PendingMatches;
    var rest := f.buffer + more;
    assert f.taken + f.buffer + more == f.taken + rest;
    assert PacketsOf(f.taken + rest) == f.packets + PacketsOf(rest);
    MessagesAppend(None, f.packets, PacketsOf(rest));
    if PacketsOf(f.buffer) == [] {
      assert PacketsOf(f.taken + f.buffer) == f.packets + [];
      assert f.packets + [] == f.packets;
    }
  }

  function MessagesIn(log: seq<Entry>): (ms: seq<Message>)
    ensures |ms| == |log|
  {
    seq(|log|, i requires 0 <= i < |log| => log[i].message)
  }

  function Listed<T>(o: Option<T>): seq<T> { if o.Some? then [o.value] else [] }

  // Headers at the front of the buffer

  /** A complete packet of type Attention starts the buffer. */
  predicate AttentionAtFront(buffer: seq<byte>) {
    var h := ParseHeader(buffer);
    h.Some? && h.value.ptype == Attention && h.value.length <= |buffer|
  }

  /** A header of another type starts the buffer. */
  predicate OtherFront(buffer: seq<byte>) {
    var h := ParseHeader(buffer);
    h.Some? && h.value.ptype != Attention
  }

  /** A header that declares no bytes at all starts the buffer: taking its packet takes nothing. */
  predicate ZeroFront(buffer: seq<byte>) {
    var h := ParseHeader(buffer);
    h.Some? && h.value.length == 0
  }

  predicate IsBatchHeader(h: Header) { h.ptype == SqlBatch && !IsIgnore(h.status) }

  /** A batch header of length zero that does not end its message: it is kept as nothing and met again. */
  predicate StuckOn(buffer: seq<byte>) {
    ZeroFront(buffer) && var h := ParseHeader(buffer).value; IsBatchHeader(h) && !IsEndOfMessage(h.status)
  }

  /** Behind batch packets that are only collected, a batch header shorter than itself is met while a batch
      is pending: its body is sliced off beyond its end. */
  predicate PanicsOn(buffer: seq<byte>, pending: bool)
    decreases |buffer|
  {
    var parsed := ParseHeader(buffer);
    && parsed.Some? && parsed.value.length <= |buffer| && IsBatchHeader(parsed.value)
    && var h := parsed.value;
       || (pending && h.length < PACKET_HEADER_SIZE)
       || (!IsEndOfMessage(h.status) && h.length > 0 && PanicsOn(buffer[h.length..], true))
  }

  /** A packet without any bytes that is answered all the same, and is then still at the front. */
  predicate Repeats(buffer: seq<byte>, pending: bool, phase: LoginPhase) {
    && ZeroFront(buffer)
    && var h := ParseHeader(buffer).value;
       || (h.ptype == SqlBatch && IsIgnore(h.status))
       || (h.ptype == SqlBatch && IsEndOfMessage(h.status) && !pending && phase != LoggedIn)
       || h.ptype == Attention
       || (h.ptype == FedAuthToken && phase != Challenged)
       || (h.ptype == RpcRequest && phase != LoggedIn)
  }

  /** The server meets the same header again and again, with or without answering it. */
  predicate Endless(buffer: seq<byte>, pending: bool, phase: LoginPhase) {
    (StuckOn(buffer) && !pending) || Repeats(buffer, pending, phase)
  }

  lemma EndlessZero(buffer: seq<byte>, pending: bool, phase: LoginPhase)
    ensures Endless(buffer, pending, phase) ==> ZeroFront(buffer)
  {
  }

  // What draining a buffer comes to without delays

  /** What one packet does to the batch so far: it is held, completes a message, withdraws the batch, or is
      sliced beyond its end. */
  datatype Turn = Held(pendingBatch: seq<byte>) | Completed(ptype: PacketType, data: seq<byte>) | Withdraws | Breaks

  function TurnOf(h: Header, packet: seq<byte>, pendingBatch: seq<byte>): Turn {
    if h.ptype != SqlBatch then Completed(h.ptype, packet)
    else if IsIgnore(h.status) then Withdraws
    else if pendingBatch != [] && |packet| < PACKET_HEADER_SIZE then Breaks
    else
      var batch := if pendingBatch == [] then packet else pendingBatch + packet[PACKET_HEADER_SIZE..];
      if IsEndOfMessage(h.status) then Completed(SqlBatch, batch) else Held(batch)
  }

  /** What becomes of a message: answered, which may move the login on, ignored, or sliced beyond its end. */
  datatype Verdict = Replied(next: LoginPhase) | Passed | Crashed

  function VerdictOn(c: Config, phase: LoginPhase, t: PacketType, data: seq<byte>): Verdict {
    if |data| >= PACKET_HEADER_SIZE then
      var reply := ReplyFor(c, phase, Message(t, data[PACKET_HEADER_SIZE..]));
      if reply == Ignored then Passed else Replied(PhaseAfter(phase, reply))
    else if LooksInside(phase, t) then Crashed
    else if t == PreLogin || t == TabularResult then Passed
    else Replied(phase)
  }

  lemma ShortVerdict(c: Config, phase: LoginPhase, t: PacketType, data: seq<byte>)
    requires |data| < PACKET_HEADER_SIZE
    ensures VerdictOn(c, phase, t, data) == VerdictOn(c, phase, t, [])
  {
  }

  /** The arms that slice the body off the packet. */
  predicate LooksInside(phase: LoginPhase, t: PacketType) {
    || t == Login7 || t == TransactionManager || (t == FedAuthToken && phase == Challenged)
    || ((t == SqlBatch || t == RpcRequest) && phase == LoggedIn)
  }

  /** How draining a buffer ends: waiting for more bytes, at an ignored message, in a panic, or never. */
  datatype Ending = Waits | Stops | Panics | Loops

  function DrainEnd(c: Config, phase: LoginPhase, buffer: seq<byte>, pendingBatch: seq<byte>): Ending
    decreases |buffer|
  {
    var parsed := ParseHeader(buffer);
    if parsed.None? || |buffer| < parsed.value.length then Waits
    else
      var h := parsed.value;
      var rest := buffer[h.length..];
      match TurnOf(h, buffer[..h.length], pendingBatch)
      case Breaks => Panics
      case Held(batch) => if h.length == 0 then Loops else DrainEnd(c, phase, rest, batch)
      case Withdraws => if h.length == 0 then Loops else DrainEnd(c, phase, rest, [])
      case Completed(t, data) =>
        match VerdictOn(c, phase, t, data)
        case Crashed => Panics
        case Passed => Stops
        case Replied(next) => if h.length == 0 then Loops else DrainEnd(c, next, rest, [])
  }

  /** Draining on from what the framing loop gave. */
  function FrameEnd(c: Config, phase: LoginPhase, f: Frame, buffer: seq<byte>): Ending {
    match f
    case NeedMore => Waits
    case FramePanic => Panics
    case FrameStuck => Loops
    case Withdrawal => DrainEnd(c, phase, buffer, [])
    case Whole(t, data) =>
      match VerdictOn(c, phase, t, data)
      case Crashed => Panics
      case Passed => Stops
      case Replied(next) => DrainEnd(c, next, buffer, [])
  }

  /** What the framing loop makes of one packet. */
  ghost predicate FrameIs(turn: Turn, empty: bool, f: Frame, pendingBatch: seq<byte>) {
    match turn
    case Breaks => f == FramePanic
    case Held(batch) => f == (if empty then FrameStuck else NeedMore) && pendingBatch == batch
    case Withdraws => f == Withdrawal && pendingBatch == []
    case Completed(t, data) => f == Whole(t, data) && pendingBatch == []
  }

  /** A packet without bytes at the front: draining never ends exactly when it is held or answered. */
  lemma RepeatsLoop(c: Config, phase: LoginPhase, buffer: seq<byte>, pendingBatch: seq<byte>)
    ensures ZeroFront(buffer) ==>
              (DrainEnd(c, phase, buffer, pendingBatch) == Loops <==> Endless(buffer, pendingBatch != [], phase))
  {
    hide ReplyFor;
  }

  /** One packet further. */
  lemma DrainEndStep(c: Config, phase: LoginPhase, buffer: seq<byte>, pendingBatch: seq<byte>, h: Header, f: Frame,
                     after: seq<byte>)
    requires ParseHeader(buffer) == Some(h) && h.length <= |buffer|
    requires FrameIs(TurnOf(h, buffer[..h.length], pendingBatch), h.length == 0, f, after)
    ensures DrainEnd(c, phase, buffer, pendingBatch)
         == if f.NeedMore? then DrainEnd(c, phase, buffer[h.length..], after)
            else FrameEnd(c, phase, f, buffer[h.length..])
  {
    hide ReplyFor, ParseHeader;
    if h.length == 0 {
      assert buffer[h.length..] == buffer && buffer[..0] == [];
      assert TurnOf(h, [], []) == TurnOf(h, [], pendingBatch) || TurnOf(h, [], pendingBatch).Breaks?;
    }
  }

  lemma DrainEndWaits(c: Config, phase: LoginPhase, buffer: seq<byte>, pendingBatch: seq<byte>)
    requires ParseHeader(buffer).None? || |buffer| < ParseHeader(buffer).value.length
    ensures DrainEnd(c, phase, buffer, pendingBatch) == Waits == FrameEnd(c, phase, NeedMore, buffer)
  {
  }

  lemma FrameAtZero(buffer: seq<byte>, pendingBatch: seq<byte>, h: Header, f: Frame, after: seq<byte>)
    requires ParseHeader(buffer) == Some(h) && h.length <= |buffer|
    requires FrameIs(TurnOf(h, buffer[..h.length], pendingBatch), h.length == 0, f, after)
    ensures f.Whole? || f.Withdrawal? || f.FrameStuck? ==> after == []
    ensures ZeroFront(buffer) ==> FrameIs(TurnOf(ParseHeader(buffer).value, [], pendingBatch), true, f, after)
  {
    hide ParseHeader;
    if h.length == 0 {
      assert buffer[..0] == [];
    }
  }

  /** Which frames made of a packet without bytes are answered. */
  lemma ZeroFrame(c: Config, phase: LoginPhase, buffer: seq<byte>, pendingBatch: seq<byte>, f: Frame,
                  after: seq<byte>)
    requires ZeroFront(buffer) && FrameIs(TurnOf(ParseHeader(buffer).value, [], pendingBatch), true, f, after)
    ensures Repeats(buffer, pendingBatch != [], phase) <==>
            f.Withdrawal? || (f.Whole? && VerdictOn(c, phase, f.ptype, []).Replied?)
    ensures Repeats(buffer, pendingBatch != [], phase) ==> Repeats(buffer, after != [], phase)
    ensures f.Whole? ==> f.data == [] && (f.ptype != Attention ==> OtherFront(buffer))
  {
    hide ReplyFor;
  }

  /** Streams without short headers end in a wait or at an ignored message. */
  lemma {:induction false} WellFramedEnds(c: Config, phase: LoginPhase, buffer: seq<byte>, pendingBatch: seq<byte>)
    requires WellFramed(buffer) && (pendingBatch == [] || |pendingBatch| >= PACKET_HEADER_SIZE)
    ensures DrainEnd(c, phase, buffer, pendingBatch).Waits? || DrainEnd(c, phase, buffer, pendingBatch).Stops?
    decreases |buffer|
  {
    hide ReplyFor;
    var parsed := ParseHeader(buffer);
    if parsed.Some? && parsed.value.length <= |buffer| {
      var h := parsed.value;
      var rest := buffer[h.length..];
      match TurnOf(h, buffer[..h.length], pendingBatch)
      case Breaks =>
      case Held(batch) => WellFramedEnds(c, phase, rest, batch);
      case Withdraws => WellFramedEnds(c, phase, rest, []);
      case Completed(t, data) =>
        if VerdictOn(c, phase, t, data).Replied? {
          WellFramedEnds(c, VerdictOn(c, phase, t, data).next, rest, []);
        }
    }
  }

  /** What the header at the front means for the loop. */
  lemma FrontCases(buffer: seq<byte>, pending: bool)
    ensures var parsed := ParseHeader(buffer);
            if parsed.None? || |buffer| < parsed.value.length then
              !PanicsOn(buffer, pending) && !StuckOn(buffer) && !ZeroFront(buffer) && !AttentionAtFront(buffer)
            else
              var h := parsed.value;
              && (ZeroFront(buffer) <==> h.length == 0) && (AttentionAtFront(buffer) <==> h.ptype == Attention)
              && (OtherFront(buffer) <==> h.ptype != Attention)
              && (StuckOn(buffer) <==> h.length == 0 && IsBatchHeader(h) && !IsEndOfMessage(h.status))
              && (PanicsOn(buffer, pending) <==>
                    && IsBatchHeader(h)
                    && (|| (pending && h.length < PACKET_HEADER_SIZE)
                        || (!IsEndOfMessage(h.status) && h.length > 0 && PanicsOn(buffer[h.length..], true))))
  {
  }

  /** Streams without short headers never panic the loop or hold it up. */
  lemma {:induction false} WellFramedIsSafe(buffer: seq<byte>, pending: bool)
    requires WellFramed(buffer)
    ensures !PanicsOn(buffer, pending) && !StuckOn(buffer) && !ZeroFront(buffer)
    decreases |buffer|
  {
    var parsed := ParseHeader(buffer);
    if parsed.Some? && parsed.value.length <= |buffer| {
      WellFramedIsSafe(buffer[parsed.value.length..], true);
    }
  }

  lemma FrontStays(before: seq<byte>, buffer: seq<byte>)
    requires before <= buffer
    ensures OtherFront(before) ==> OtherFront(buffer) && !AttentionAtFront(buffer)
    ensures ZeroFront(before) ==> ZeroFront(buffer)
  {
    if |before| >= PACKET_HEADER_SIZE {
      assert buffer == before + buffer[|before|..];
      HeaderPrefix(before, buffer[|before|..]);
    }
  }

  /** The client side: chunks still to be read, none of them empty. */
  class Socket {
    var chunks: seq<seq<byte>>

    ghost predicate Valid()
      reads this
    {
      forall i :: 0 <= i < |chunks| ==> chunks[i] != []
    }

    constructor (chunks: seq<seq<byte>>)
      requires forall i :: 0 <= i < |chunks| ==> chunks[i] != []
      ensures Valid() && this.chunks == chunks
    {
      this.chunks := chunks;
    }

    /** Empty when the connection is closed. */
    method Read() returns (data: seq<byte>)
      requires Valid()
      modifies this
      ensures Valid()
      ensures old(chunks) == [] ==> data == [] && chunks == []
      ensures old(chunks) != [] ==> data == old(chunks)[0] != [] && chunks == old(chunks)[1..]
    {
      if chunks == [] {
        return [];
      }
      data := chunks[0];
      chunks := chunks[1..];
    }
  }

  datatype Frame = NeedMore | Whole(ptype: PacketType, data: seq<byte>) | Withdrawal | FramePanic | FrameStuck

  datatype Wait = Elapsed | Interrupted | Closed

  /** Outcome of one `process_packet` call. */
  datatype Outcome = Idle | Answered(reply: Reply) | Silent | Panicked | Diverged

  class ConnectionProcessor {
    var buffer: seq<byte>
    var pendingBatch: seq<byte>
    var isAuthenticated: bool
    var awaitingFedAuthToken: bool
    var receivedToken: Option<seq<byte>>
    var requestedFeatureIds: seq<byte>
    var descriptors: seq<(u64, u32)>
    const config: Config

    /** Bytes and packets taken off the buffer, messages made of them, and their answers. */
    ghost var taken: seq<byte>
    ghost var packets: seq<Packet>
    ghost var messages: seq<Message>
    ghost var log: seq<Entry>
    /** A header declaring fewer than eight bytes has been processed. */
    ghost var misframed: bool

    ghost function State(): Framing
      reads this`buffer, this`pendingBatch, this`taken, this`packets, this`messages
    {
      Framing(buffer, pendingBatch, taken, packets, messages)
    }

    /** Every byte that ever entered the buffer. */
    ghost function Received(): seq<byte>
      reads this`taken, this`buffer
    {
      taken + buffer
    }

    /** Framing follows the specification of the received bytes unless those are ill-framed. */
    ghost predicate FramingValid()
      reads this`buffer, this`pendingBatch, this`taken, this`packets, this`messages, this`misframed
    {
      if misframed then !WellFramed(Received()) else InStep(State())
    }

    /** Never both authenticated and awaiting a token; both flags follow from the answers given. */
    ghost predicate LoginValid()
      reads this`isAuthenticated, this`awaitingFedAuthToken, this`log
    {
      && !(isAuthenticated && awaitingFedAuthToken)
      && (isAuthenticated <==> Phase(log) == LoggedIn)
      && (awaitingFedAuthToken <==> Phase(log) == Challenged)
      && AllEarned(config, log)
    }

    /** Between packets every message taken has been answered. */
    ghost predicate Valid()
      reads this
    {
      FramingValid() && LoginValid() && (!misframed ==> MessagesIn(log) == messages)
    }

    constructor (config: Config)
      ensures this.config == config && Valid() && log == [] && Received() == [] && !misframed && buffer == []
    {
      buffer, pendingBatch, isAuthenticated, awaitingFedAuthToken := [], [], false, false;
      receivedToken, requestedFeatureIds, descriptors := None, [], [];
      this.config := config;
      taken, packets, messages, log, misframed := [], [], [], [], false;
      InStepInitially();
    }

    /** Bytes arriving from the socket. */
    method Append(data: seq<byte>)
      requires FramingValid()
      modifies this`buffer
      ensures FramingValid() && Received() == old(Received()) + data
      ensures buffer == old(buffer) + data
    {
      hide WellFramed, Frontier, Faithful, Messages, PendingAfter, PendingMatches;
      assert taken + (buffer + data) == taken + buffer + data;
      if misframed && WellFramed(taken + (buffer + data)) {
        WellFramedPrefix(taken + buffer, data);
      }
      buffer := buffer + data;
    }

    /** A header shorter than itself: from here on the stream is not framed. */
    lemma ShortHeader(h: Header)
      requires FramingValid() && ParseHeader(buffer) == Some(h) && h.length < PACKET_HEADER_SIZE
      ensures !WellFramed(Received())
    {
      if !misframed {
        assert WellFramed(taken + buffer) <==> WellFramed(buffer);
      }
    }

    /** The framing loop: packets are taken until one completes a message. */
    method NextFrame(ghost phase: LoginPhase) returns (f: Frame)
      requires FramingValid()
      modifies this`buffer, this`pendingBatch, this`taken, this`packets, this`messages, this`misframed
      ensures FramingValid() && Received() == old(Received()) && |buffer| <= |old(buffer)|
      ensures old(misframed) ==> misframed
      ensures !misframed ==> !f.FramePanic? && !f.FrameStuck?
      ensures !misframed && f.NeedMore? ==> messages == old(messages) && PacketsOf(buffer) == []
      ensures !misframed && (f.Whole? || f.Withdrawal?) ==> |buffer| < |old(buffer)| && pendingBatch == []
      ensures !misframed && f.Whole? ==>
                && |f.data| >= PACKET_HEADER_SIZE
                && messages == old(messages) + [Message(f.ptype, f.data[PACKET_HEADER_SIZE..])]
      ensures !misframed && f.Withdrawal? ==> messages == old(messages) + [Withdrawn]
      ensures f.FramePanic? <==> PanicsOn(old(buffer), old(pendingBatch) != [])
      ensures f.FrameStuck? <==> StuckOn(old(buffer)) && old(pendingBatch) == []
      ensures f.Whole? || f.Withdrawal? || f.FrameStuck? ==> pendingBatch == []
      ensures DrainEnd(config, phase, old(buffer), old(pendingBatch)) == FrameEnd(config, phase, f, buffer)
      ensures ZeroFront(old(buffer)) ==>
                FrameIs(TurnOf(ParseHeader(old(buffer)).value, [], old(pendingBatch)), true, f, pendingBatch)
      ensures ZeroFront(old(buffer)) ==> misframed && !f.NeedMore? && buffer == old(buffer)
      ensures f.NeedMore? ==> !ZeroFront(buffer)
      ensures (f.Whole? || f.Withdrawal?) && !ZeroFront(old(buffer)) ==> |buffer| < |old(buffer)|
      ensures AttentionAtFront(old(buffer)) ==> f.Whole? && f.ptype == Attention
    {
      hide PanicsOn, StuckOn, ZeroFront, AttentionAtFront, OtherFront, DrainEnd, FrameEnd, FrameIs, TurnOf;
      while true
        invariant FramingValid() && Received() == old(Received()) && |buffer| <= |old(buffer)|
        invariant old(misframed) ==> misframed
        invariant !misframed ==> messages == old(messages)
        invariant PanicsOn(buffer, pendingBatch != []) <==> PanicsOn(old(buffer), old(pendingBatch) != [])
        invariant DrainEnd(config, phase, buffer, pendingBatch)
               == DrainEnd(config, phase, old(buffer), old(pendingBatch))
        invariant
          || (buffer == old(buffer) && pendingBatch == old(pendingBatch))
          || (&& |buffer| < |old(buffer)| && pendingBatch != [] && !(StuckOn(old(buffer)) && old(pendingBatch) == [])
              && !ZeroFront(old(buffer)) && !AttentionAtFront(old(buffer)))
        decreases |buffer|
      {
        hide WellFramed, PacketsOf, InStep, ParseHeader, PendingAfter;
        FrontCases(buffer, pendingBatch != []);
        var parsed := ParseHeader(buffer);
        if parsed.None? || |buffer| < parsed.value.length {
          PacketsOfNone(buffer);
          DrainEndWaits(config, phase, buffer, pendingBatch);
          return NeedMore;
        }
        var h := parsed.value;
        ghost var before, batch := buffer, pendingBatch;
        if h.length < PACKET_HEADER_SIZE {
          ShortHeader(h);
          f := ShortFrame(h);
          DrainEndStep(config, phase, before, batch, h, f, pendingBatch);
          FrameAtZero(before, batch, h, f, pendingBatch);
          if f.NeedMore? {
            continue;
          }
          return;
        }
        var again;
        f, again := FullFrame(h);
        DrainEndStep(config, phase, before, batch, h, f, pendingBatch);
        FrameAtZero(before, batch, h, f, pendingBatch);
        if !again {
          return;
        }
      }
    }

    /** One packet of at least header size. `again` means the batch it belongs to is not complete. */
    method FullFrame(h: Header) returns (f: Frame, again: bool)
      requires FramingValid() && AtFront(buffer, h)
      modifies this`buffer, this`pendingBatch, this`taken, this`packets, this`messages
      ensures FramingValid() && Received() == old(Received()) && |buffer| < |old(buffer)|
      ensures f.Whole? || f.Withdrawal? || again
      ensures !f.FramePanic? && !f.FrameStuck? && (f.Whole? ==> f.ptype == h.ptype)
      ensures again <==> IsBatchHeader(h) && !IsEndOfMessage(h.status)
      ensures again <==> f.NeedMore?
      ensures FrameIs(TurnOf(h, old(buffer)[..h.length], old(pendingBatch)), false, f, pendingBatch)
      ensures h.ptype != SqlBatch ==> f.Whole?
      ensures buffer == old(buffer)[h.length..] && (again ==> pendingBatch != [])
      ensures !misframed && again ==> messages == old(messages)
      ensures !misframed && !again ==> pendingBatch == []
      ensures !misframed && !again && f.Whole? ==>
                && |f.data| >= PACKET_HEADER_SIZE
                && messages == old(messages) + [Message(f.ptype, f.data[PACKET_HEADER_SIZE..])]
      ensures !misframed && !again && f.Withdrawal? ==> messages == old(messages) + [Withdrawn]
    {
      hide WellFramed, Frontier, Faithful, Messages, PendingAfter;
      ghost var before := State();
      var packetData := buffer[..h.length];
      ghost var pending := PendingAfter(None, packets);
      if !misframed {
        TookInStep(before, h);
        JoinedMatches(pendingBatch, pending, packetData);
      }
      ghost var p := Packet(h, packetData[PACKET_HEADER_SIZE..]);
      buffer := buffer[h.length..];
      taken, packets, messages := taken + packetData, packets + [p], messages + MessageAt(pending, p);
      assert taken + buffer == before.taken + before.buffer;
      again := false;
      if h.ptype == SqlBatch {
        if IsIgnore(h.status) {
          pendingBatch := [];
          return Withdrawal, false;
        }
        if !IsEndOfMessage(h.status) {
          if pendingBatch == [] {
            pendingBatch := packetData;
          } else {
            pendingBatch := pendingBatch + packetData[PACKET_HEADER_SIZE..];
          }
          return NeedMore, true;
        }
        if pendingBatch != [] {
          var batch := pendingBatch + packetData[PACKET_HEADER_SIZE..];
          pendingBatch := [];
          return Whole(h.ptype, batch), false;
        }
        f := Whole(h.ptype, packetData);
      } else {
        pendingBatch := [];
        f := Whole(h.ptype, packetData);
      }
    }

    /** A packet whose header declares fewer than eight bytes: part of the header stays in the buffer. */
    method ShortFrame(h: Header) returns (f: Frame)
      requires ParseHeader(buffer) == Some(h) && h.length < PACKET_HEADER_SIZE && !WellFramed(Received())
      modifies this`buffer, this`pendingBatch, this`taken, this`misframed
      ensures misframed && FramingValid() && Received() == old(Received()) && buffer == old(buffer)[h.length..]
      ensures FrameIs(TurnOf(h, old(buffer)[..h.length], old(pendingBatch)), h.length == 0, f, pendingBatch)
      ensures f.FramePanic? <==> IsBatchHeader(h) && old(pendingBatch) != []
      ensures f.FrameStuck? <==>
              IsBatchHeader(h) && !IsEndOfMessage(h.status) && old(pendingBatch) == [] && h.length == 0
      ensures f.NeedMore? <==>
              IsBatchHeader(h) && !IsEndOfMessage(h.status) && old(pendingBatch) == [] && h.length > 0
      ensures f.NeedMore? ==> pendingBatch != []
      ensures f.Whole? ==> f.ptype == h.ptype && |f.data| == h.length
      ensures h.ptype != SqlBatch ==> f.Whole?
    {
      misframed := true;
      var packetData := buffer[..h.length];
      taken := taken + packetData;
      buffer := buffer[h.length..];
      assert taken + buffer == old(taken) + old(buffer);
      if h.ptype != SqlBatch {
        pendingBatch := [];
        return Whole(h.ptype, packetData);
      }
      if IsIgnore(h.status) {
        pendingBatch := [];
        return Withdrawal;
      }
      if pendingBatch != [] {
        return FramePanic;
      }
      if IsEndOfMessage(h.status) {
        return Whole(h.ptype, packetData);
      }
      pendingBatch := packetData;
      if h.length == 0 {
        return FrameStuck;
      }
      return NeedMore;
    }

    /** `try_take_attention`: consumes an Attention packet that is complete at the front of the buffer. */
    method TryTakeAttention() returns (ack: bool)
      requires FramingValid() && (!misframed ==> pendingBatch == [])
      modifies this`buffer, this`taken, this`packets, this`messages, this`misframed
      ensures FramingValid() && Received() == old(Received()) && |buffer| <= |old(buffer)|
      ensures old(misframed) ==> misframed
      ensures !misframed && ack ==> exists body: seq<byte> :: messages == old(messages) + [Message(Attention, body)]
      ensures !misframed && !ack ==> messages == old(messages)
      ensures !ack ==> unchanged(this)
      ensures ack <==> AttentionAtFront(old(buffer))
    {
      hide WellFramed, Frontier, Faithful, Messages, PendingAfter;
      var parsed := ParseHeader(buffer);
      if parsed.None? || parsed.value.ptype != Attention || |buffer| < parsed.value.length {
        return false;
      }
      var h := parsed.value;
      ghost var before := State();
      ghost var packetData := buffer[..h.length];
      if h.length < PACKET_HEADER_SIZE {
        ShortHeader(h);
        misframed := true;
        taken := taken + packetData;
        buffer := buffer[h.length..];
        assert taken + buffer == before.taken + before.buffer;
        return true;
      }
      if !misframed {
        TookInStep(before, h);
      }
      ghost var p := Packet(h, packetData[PACKET_HEADER_SIZE..]);
      buffer := buffer[h.length..];
      messages := messages + MessageAt(PendingAfter(None, packets), p);
      taken, packets := taken + packetData, packets + [p];
      assert taken + buffer == before.taken + before.buffer;
      assert !misframed ==> messages == before.messages + [Message(Attention, p.body)];
      return true;
    }

    /** The framing fields and the socket move together: nothing read is lost. */
    twostate predicate Conserved(socket: Socket)
      reads this, socket
    {
      && socket.Valid()
      && Received() + Flatten(socket.chunks) == old(Received() + Flatten(socket.chunks))
      && |buffer| + |Flatten(socket.chunks)| <= old(|buffer| + |Flatten(socket.chunks)|)
      && |socket.chunks| <= old(|socket.chunks|)
      && (old(misframed) ==> misframed)
    }

    /** `wait_out_delay_or_attention`: the delay races against the client. */
    method WaitOutDelay(socket: Socket) returns (w: Wait)
      requires FramingValid() && socket.Valid() && (!misframed ==> pendingBatch == [])
      modifies this`buffer, this`taken, this`packets, this`messages, this`misframed, socket
      ensures FramingValid() && Conserved(socket)
      ensures w.Closed? ==> socket.chunks == []
      ensures !misframed && w.Interrupted? ==>
                exists body: seq<byte> :: messages == old(messages) + [Message(Attention, body)]
      ensures !misframed && !w.Interrupted? ==> messages == old(messages)
      ensures w.Interrupted? ==> !OtherFront(old(buffer))
      ensures !w.Interrupted? ==> old(buffer) <= buffer
    {
      hide InStep, WellFramed;
      while true
        invariant FramingValid() && Conserved(socket) && (!misframed ==> pendingBatch == [])
        invariant misframed == old(misframed) && messages == old(messages) && old(buffer) <= buffer
        decreases |socket.chunks|
      {
        var elapsedFirst: bool := *;
        if elapsedFirst {
          return Elapsed;
        }
        ghost var chunks := socket.chunks;
        if chunks != [] {
          Regroup(Received(), chunks[0], Flatten(chunks[1..]));
        }
        var data := socket.Read();
        if data == [] {
          return Closed;
        }
        Append(data);
        FrontStays(old(buffer), buffer);
        var ack := TryTakeAttention();
        if ack {
          return Interrupted;
        }
      }
    }

    /** Framing done and `m` taken, but not answered yet. */
    ghost predicate Owes(m: Message)
      reads this
    {
      FramingValid() && LoginValid() && (!misframed ==> messages == MessagesIn(log) + [m] && pendingBatch == [])
    }

    /** The whole effect of a call on the log and the streams. */
    twostate predicate Moved(socket: Socket)
      reads this, socket
    {
      Valid() && Conserved(socket) && old(log) <= log && DropsLast(socket)
    }

    /** What goes out is the answer entered last. */
    ghost predicate Told(r: Outcome)
      reads this`log
    {
      && (r.Answered? ==> log != [] && log[|log| - 1].reply == r.reply && r.reply != Dropped && r.reply != Ignored)
      && (r.Silent? ==> log != [] && (log[|log| - 1].reply == Dropped || log[|log| - 1].reply == Ignored))
    }

    lemma Logged(m: Message, reply: Reply)
      ensures MessagesIn(log + [Entry(m, reply)]) == MessagesIn(log) + [m]
    {
    }

    /** Nothing was read while the message was handled, and it was entered with one answer. */
    twostate predicate Prompt(socket: Socket)
      reads this, socket
    {
      && socket.chunks == old(socket.chunks) && buffer == old(buffer) && taken == old(taken)
      && |log| == |old(log)| + 1
    }

    /** `m` was entered with the answer it earned, which is what goes out. */
    twostate predicate Entered(m: Message, new r: Outcome)
      reads this`log
    {
      var reply := ReplyFor(config, old(Phase(log)), m);
      log == old(log) + [Entry(m, reply)] && r == Answered(reply)
    }

    /** Only the last new entry can be a drop, and then the connection has closed. */
    twostate predicate DropsLast(socket: Socket)
      reads this`log, socket
    {
      forall i :: |old(log)| <= i < |log| && log[i].reply == Dropped ==> i == |log| - 1 && socket.chunks == []
    }

    /** Holds the answer to `m` back if a delay is configured; when that does not simply elapse, `m` is
        settled here. */
    method Delay(socket: Socket, m: Message) returns (w: Wait)
      requires Owes(m) && socket.Valid() && Delayable(config, Phase(log), m)
      modifies this`buffer, this`taken, this`packets, this`messages, this`misframed, this`log, socket
      ensures Conserved(socket) && old(log) <= log
      ensures w.Elapsed? ==> Owes(m) && log == old(log)
      ensures !w.Elapsed? ==> Valid() && DropsLast(socket)
      ensures w.Closed? ==> socket.chunks == [] && log == old(log) + [Entry(m, Dropped)]
      ensures w.Interrupted? ==> log != [] && log[|log| - 1].reply == AttentionAck && !OtherFront(old(buffer))
      ensures !w.Interrupted? ==> old(buffer) <= buffer
      ensures !config.delayed(m) ==> w.Elapsed? && unchanged(this) && unchanged(socket)
    {
      hide InStep, WellFramed, Phase, AllEarned, QueryReply, LoginReply, Delayable, PacketsOf, MessagesIn, ParseHeader;
      if !config.delayed(m) {
        return Elapsed;
      }
      w := WaitOutDelay(socket);
      if w.Closed? {
        Settle(m, Dropped);
      } else if w.Interrupted? {
        ghost var body: seq<byte> := [];
        if !misframed {
          body :| messages == old(messages) + [Message(Attention, body)];
        }
        Settle(m, Abandoned);
        Settle(Message(Attention, body), AttentionAck);
      }
    }

    /** Enters an answer that leaves the login state alone. */
    ghost method Settle(m: Message, reply: Reply)
      requires LoginValid() && Earned(config, Phase(log), Entry(m, reply))
      requires PhaseAfter(Phase(log), reply) == Phase(log)
      modifies this`log
      ensures LoginValid() && log == old(log) + [Entry(m, reply)] && MessagesIn(log) == old(MessagesIn(log)) + [m]
      ensures Phase(log) == old(Phase(log))
    {
      hide AllEarned, Earned, Phase, PhaseAfter;
      AppendEarned(config, log, Entry(m, reply));
      Logged(m, reply);
      log := log + [Entry(m, reply)];
    }

    /** Answers `m` without waiting. */
    method Answer(ghost m: Message, reply: Reply)
      requires FramingValid() && AllEarned(config, log)
      requires !misframed ==> messages == MessagesIn(log) + [m]
      requires reply == ReplyFor(config, Phase(log), m)
      requires isAuthenticated <==> PhaseAfter(Phase(log), reply) == LoggedIn
      requires awaitingFedAuthToken <==> PhaseAfter(Phase(log), reply) == Challenged
      modifies this`log
      ensures Valid() && log == old(log) + [Entry(m, reply)]
    {
      hide InStep, WellFramed, AllEarned, PhaseAfter, ReplyFor, Delayable;
      AppendEarned(config, log, Entry(m, reply));
      Logged(m, reply);
      log := log + [Entry(m, reply)];
    }

    /** The Login7 arm: redirect, challenge, or complete the login. */
    method HandleLogin(socket: Socket, data: seq<byte>) returns (r: Outcome)
      requires |data| >= PACKET_HEADER_SIZE && Owes(Message(Login7, data[PACKET_HEADER_SIZE..])) && socket.Valid()
      modifies this`buffer, this`taken, this`packets, this`messages, this`misframed, this`log, socket
      modifies this`isAuthenticated, this`awaitingFedAuthToken, this`receivedToken, this`requestedFeatureIds
      ensures Moved(socket) && (r.Answered? || r.Silent?) && Told(r)
      ensures !config.delayed(Message(Login7, data[PACKET_HEADER_SIZE..])) ==>
                Prompt(socket) && Entered(Message(Login7, data[PACKET_HEADER_SIZE..]), r)
    {
      hide Phase, AllEarned, AuthOf, FramingValid;
      var body := data[PACKET_HEADER_SIZE..];
      var m := Message(Login7, body);
      var w := Delay(socket, m);
      if w.Interrupted? {
        return Answered(AttentionAck);
      } else if w.Closed? {
        return Silent;
      }
      r := Login(body);
    }

    /** What a login does once its delay is over. */
    method Login(body: seq<byte>) returns (r: Outcome)
      requires Owes(Message(Login7, body))
      modifies this`isAuthenticated, this`awaitingFedAuthToken, this`receivedToken, this`requestedFeatureIds, this`log
      ensures Valid() && old(log) <= log && r.Answered? && Told(r) && Entered(Message(Login7, body), r)
      ensures requestedFeatureIds == AuthOf(body).featureIds
      ensures awaitingFedAuthToken <==> !config.redirects && AuthOf(body).hasFedAuth && AuthOf(body).token.None?
      ensures isAuthenticated == !awaitingFedAuthToken
      ensures receivedToken ==
              if isAuthenticated && !config.redirects && AuthOf(body).hasFedAuth then AuthOf(body).token
              else old(receivedToken)
    {
      hide FramingValid, Phase, AllEarned, AuthOf;
      ghost var m := Message(Login7, body);
      var info := ParseLogin7(body);
      requestedFeatureIds := info.featureIds;
      if config.redirects {
        awaitingFedAuthToken, isAuthenticated := false, true;
        r := Answered(Routed);
      } else if info.hasFedAuth && info.token.None? {
        awaitingFedAuthToken, isAuthenticated := true, false;
        r := Answered(Challenge);
      } else {
        awaitingFedAuthToken, isAuthenticated := false, true;
        if info.hasFedAuth {
          receivedToken := info.token;
        }
        r := Answered(LoginAck(info.hasFedAuth));
      }
      Answer(m, r.reply);
    }

    /** The FedAuthToken arm: only an open challenge accepts a token. */
    method HandleToken(data: seq<byte>) returns (r: Outcome)
      requires |data| >= PACKET_HEADER_SIZE && Owes(Message(FedAuthToken, data[PACKET_HEADER_SIZE..]))
      modifies this`isAuthenticated, this`awaitingFedAuthToken, this`receivedToken, this`log
      ensures Valid() && old(log) <= log && r.Answered? && Told(r)
      ensures Entered(Message(FedAuthToken, data[PACKET_HEADER_SIZE..]), r)
      ensures receivedToken ==
              if old(awaitingFedAuthToken) && ParseFedAuthToken(data[PACKET_HEADER_SIZE..]).Some?
              then ParseFedAuthToken(data[PACKET_HEADER_SIZE..]) else old(receivedToken)
    {
      hide InStep, WellFramed, Phase, AllEarned;
      var body := data[PACKET_HEADER_SIZE..];
      if !awaitingFedAuthToken {
        r := Answered(Error(UnexpectedToken));
      } else {
        var token := ParseFedAuthToken(body);
        if token.Some? {
          receivedToken := token;
          awaitingFedAuthToken, isAuthenticated := false, true;
          r := Answered(LoginAck(true));
        } else {
          awaitingFedAuthToken := false;
          r := Answered(Error(BadToken));
        }
      }
      Answer(Message(FedAuthToken, body), r.reply);
    }

    /** The SqlBatch and RpcRequest arms. */
    method HandleQuery(socket: Socket, t: PacketType, data: seq<byte>) returns (r: Outcome)
      requires t == SqlBatch || t == RpcRequest
      requires |data| >= PACKET_HEADER_SIZE && Owes(Message(t, data[PACKET_HEADER_SIZE..])) && socket.Valid()
      modifies this`buffer, this`taken, this`packets, this`messages, this`misframed, this`log, this`descriptors, socket
      ensures Moved(socket) && (r.Answered? || r.Silent?) && Told(r)
      ensures !config.delayed(Message(t, data[PACKET_HEADER_SIZE..])) ==>
                Prompt(socket) && Entered(Message(t, data[PACKET_HEADER_SIZE..]), r)
      ensures unchanged(this`isAuthenticated, this`awaitingFedAuthToken, this`receivedToken)
      ensures descriptors ==
              old(descriptors) + if old(isAuthenticated) then Listed(DescriptorOf(data[PACKET_HEADER_SIZE..])) else []
    {
      hide FramingValid, Phase, AllEarned, QueryReply, DescriptorOf, MessagesIn;
      var body := data[PACKET_HEADER_SIZE..];
      var m := Message(t, body);
      if !isAuthenticated {
        r := Answered(Error(NotAuthenticated));
        Answer(m, r.reply);
        return;
      }
      var descriptor := ParseTransactionDescriptorHeader(body);
      descriptors := descriptors + Listed(descriptor);
      r := AnswerQuery(socket, t, body);
    }

    /** Looks a query up and answers it, possibly after a delay. */
    method AnswerQuery(socket: Socket, t: PacketType, body: seq<byte>) returns (r: Outcome)
      requires (t == SqlBatch || t == RpcRequest) && isAuthenticated && Owes(Message(t, body)) && socket.Valid()
      modifies this`buffer, this`taken, this`packets, this`messages, this`misframed, this`log, socket
      ensures Moved(socket) && (r.Answered? || r.Silent?)
      ensures Told(r) && (!config.delayed(Message(t, body)) ==> Prompt(socket) && Entered(Message(t, body), r))
    {
      hide FramingValid, Phase, AllEarned, ParseSqlBatch, MessagesIn;
      var m := Message(t, body);
      var registered: bool;
      if t == SqlBatch {
        var text := ParseSqlBatch(body);
        if !text.Text? {
          r := Answered(Error(BadBatch));
          Answer(m, r.reply);
          return;
        }
        registered := config.batchRegistered(text.sql);
      } else {
        registered := config.rpcRegistered(body);
      }
      if registered || t == RpcRequest {
        assert Delayable(config, Phase(log), m);
        var w := Delay(socket, m);
        if w.Interrupted? {
          return Answered(AttentionAck);
        } else if w.Closed? {
          return Silent;
        }
      }
      r := Answered(if registered then RegistryAnswer else EmptyDone);
      Answer(m, r.reply);
    }

    /** The TransactionManager arm; a begin may be delayed twice. */
    method HandleTransaction(socket: Socket, data: seq<byte>) returns (r: Outcome)
      requires |data| >= PACKET_HEADER_SIZE && Owes(Message(TransactionManager, data[PACKET_HEADER_SIZE..]))
      requires socket.Valid()
      modifies this`buffer, this`taken, this`packets, this`messages, this`misframed, this`log, socket
      ensures Moved(socket) && (r.Answered? || r.Silent?)
      ensures Told(r)
      ensures !config.delayed(Message(TransactionManager, data[PACKET_HEADER_SIZE..])) ==>
                Prompt(socket) && Entered(Message(TransactionManager, data[PACKET_HEADER_SIZE..]), r)
    {
      hide FramingValid, Phase, AllEarned, RequestType, MessagesIn, QueryReply, LoginReply;
      var m := Message(TransactionManager, data[PACKET_HEADER_SIZE..]);
      var request := RequestType(data[PACKET_HEADER_SIZE..]);
      var waits :=
        if request == TM_BEGIN_XACT then 2
        else if request == TM_COMMIT_XACT || request == TM_ROLLBACK_XACT then 1 else 0;
      while waits > 0
        invariant Owes(m) && Conserved(socket) && log == old(log)
        invariant waits > 0 ==> Delayable(config, Phase(log), m)
        invariant !config.delayed(m) ==> unchanged(socket) && buffer == old(buffer) && taken == old(taken)
      {
        var w := Delay(socket, m);
        if w.Interrupted? {
          return Answered(AttentionAck);
        } else if w.Closed? {
          return Silent;
        }
        waits := waits - 1;
      }
      r := Answered(TransactionDone(request));
      Answer(m, r.reply);
    }

    /** The outcome a verdict announces. */
    ghost predicate Judged(v: Verdict, r: Outcome)
      reads this`log
    {
      match v
      case Crashed => r.Panicked?
      case Passed => r.Silent?
      case Replied(next) => r.Answered? && Phase(log) == next
    }

    /** Answers one message. A body shorter than its header makes the arms that look inside panic. */
    method Dispatch(socket: Socket, t: PacketType, data: seq<byte>) returns (r: Outcome)
      requires socket.Valid() && FramingValid() && LoginValid()
      requires |data| < PACKET_HEADER_SIZE ==> misframed
      requires |data| >= PACKET_HEADER_SIZE ==> Owes(Message(t, data[PACKET_HEADER_SIZE..]))
      modifies this`buffer, this`taken, this`packets, this`messages, this`misframed, this`log, socket
      modifies this`isAuthenticated, this`awaitingFedAuthToken, this`receivedToken, this`requestedFeatureIds
      modifies this`descriptors
      ensures Moved(socket)
      ensures r.Answered? || r.Silent? || (r.Panicked? && misframed)
      ensures Told(r) && (t == Attention ==> r == Answered(AttentionAck))
      ensures Undelayed(config) && !r.Panicked? ==> Prompt(socket)
      ensures Undelayed(config) ==> Judged(VerdictOn(config, old(Phase(log)), t, data), r)
      ensures |data| < PACKET_HEADER_SIZE && (t != Attention ==> OtherFront(old(buffer))) ==>
                (r.Answered? <==> VerdictOn(config, old(Phase(log)), t, []).Replied?)
      ensures |data| < PACKET_HEADER_SIZE ==> Phase(log) == old(Phase(log))
      ensures |data| < PACKET_HEADER_SIZE && r.Answered? && (t != Attention ==> OtherFront(old(buffer))) ==>
                Prompt(socket)
    {
      hide FramingValid, Phase, AllEarned, OtherFront, Judged, VerdictOn, MessagesIn, Told;
      if |data| < PACKET_HEADER_SIZE {
        r := DispatchShort(socket, t);
        ShortVerdict(config, old(Phase(log)), t, data);
        assert Undelayed(config) ==> !config.delayed(Message(t, []));
      } else {
        r := DispatchFull(socket, t, data);
      }
    }

    /** Answers one message of at least header size. */
    method DispatchFull(socket: Socket, t: PacketType, data: seq<byte>) returns (r: Outcome)
      requires socket.Valid() && |data| >= PACKET_HEADER_SIZE && Owes(Message(t, data[PACKET_HEADER_SIZE..]))
      modifies this`buffer, this`taken, this`packets, this`messages, this`misframed, this`log, socket
      modifies this`isAuthenticated, this`awaitingFedAuthToken, this`receivedToken, this`requestedFeatureIds
      modifies this`descriptors
      ensures Moved(socket) && (r.Answered? || r.Silent?)
      ensures Told(r) && (t == Attention ==> r == Answered(AttentionAck))
      ensures Undelayed(config) ==>
                Prompt(socket) && Judged(VerdictOn(config, old(Phase(log)), t, data), r)
    {
      hide InStep, WellFramed, Phase, AllEarned, QueryReply, LoginReply, AuthOf, Delayable, Judged, VerdictOn;
      if t == Login7 {
        r := HandleLogin(socket, data);
      } else if t == FedAuthToken {
        r := HandleToken(data);
      } else if t == SqlBatch || t == RpcRequest {
        r := HandleQuery(socket, t, data);
      } else if t == TransactionManager {
        r := HandleTransaction(socket, data);
      } else if t == Attention {
        r := Answered(AttentionAck);
        Answer(Message(Attention, data[PACKET_HEADER_SIZE..]), AttentionAck);
      } else {
        r := Silent;
        Answer(Message(t, data[PACKET_HEADER_SIZE..]), Ignored);
      }
      if Undelayed(config) {
        assert !config.delayed(Message(t, data[PACKET_HEADER_SIZE..]));
        JudgedFull(old(log), t, data, r);
      }
    }

    /** A message entered with the answer it earned gets the outcome its verdict announces. */
    lemma JudgedFull(before: seq<Entry>, t: PacketType, data: seq<byte>, r: Outcome)
      requires |data| >= PACKET_HEADER_SIZE && log != [] && log[..|log| - 1] == before
      requires log[|log| - 1].reply == ReplyFor(config, Phase(before), Message(t, data[PACKET_HEADER_SIZE..]))
      requires r == if log[|log| - 1].reply == Ignored then Silent else Answered(log[|log| - 1].reply)
      ensures Judged(VerdictOn(config, Phase(before), t, data), r)
    {
      hide ReplyFor;
    }

    /** Dispatch of a message cut off inside its header: an arm that looks inside panics, a login only once
        its delay is over. */
    method DispatchShort(socket: Socket, t: PacketType) returns (r: Outcome)
      requires FramingValid() && LoginValid() && misframed && socket.Valid()
      modifies this`buffer, this`taken, this`packets, this`messages, this`misframed, this`log, socket
      ensures Moved(socket) && Told(r) && (r.Answered? || r.Silent? || r.Panicked?)
      ensures r.Panicked? ==> LooksInside(old(Phase(log)), t)
      ensures t != Login7 || !config.delayed(Message(t, [])) ==>
                Judged(VerdictOn(config, old(Phase(log)), t, []), r)
      ensures (t != Attention ==> OtherFront(old(buffer))) ==>
                (r.Answered? <==> VerdictOn(config, old(Phase(log)), t, []).Replied?)
      ensures (t != Login7 || !config.delayed(Message(t, []))) && !r.Panicked? ==> Prompt(socket)
      ensures r.Answered? && OtherFront(old(buffer)) ==> Prompt(socket)
      ensures t == Attention ==> r == Answered(AttentionAck)
    {
      hide FramingValid, Phase, AllEarned, AuthOf, LoginReply, QueryReply, MessagesIn;
      if t == Login7 {
        var w := Delay(socket, Message(t, []));
        return if w.Interrupted? then Answered(AttentionAck) else if w.Closed? then Silent else Panicked;
      }
      if t == Attention {
        r := Answered(AttentionAck);
      } else if t == FedAuthToken && !awaitingFedAuthToken {
        r := Answered(Error(UnexpectedToken));
      } else if (t == SqlBatch || t == RpcRequest) && !isAuthenticated {
        r := Answered(Error(NotAuthenticated));
      } else if t == PreLogin || t == TabularResult {
        r := Silent;
      } else {
        return Panicked;
      }
      Answer(Message(t, []), if r.Silent? then Ignored else r.reply);
    }

    /** How draining ends, after one outcome. */
    ghost function Coming(r: Outcome): Ending
      reads this`log, this`buffer, this`pendingBatch
    {
      match r
      case Idle => Waits
      case Silent => Stops
      case Panicked => Panics
      case Diverged => Loops
      case Answered(_) => DrainEnd(config, Phase(log), buffer, pendingBatch)
    }

    /** Acknowledges a withdrawn batch. */
    method Withdraw(ghost phase: LoginPhase) returns (r: Outcome)
      requires Owes(Withdrawn) && phase == Phase(log) && pendingBatch == []
      modifies this`log
      ensures Valid() && Told(r) && r == Answered(WithdrawnAck) && log == old(log) + [Entry(Withdrawn, WithdrawnAck)]
      ensures Phase(log) == phase && Coming(r) == FrameEnd(config, phase, Withdrawal, buffer)
    {
      hide InStep, WellFramed, AllEarned, DrainEnd, Phase;
      r := Answered(WithdrawnAck);
      PhaseSnoc(log, Entry(Withdrawn, WithdrawnAck));
      Answer(Withdrawn, WithdrawnAck);
    }

    /** `process_packet`: the next message, if the buffer holds one, and its answer. */
    method ProcessPacket(socket: Socket) returns (r: Outcome)
      requires Valid() && socket.Valid()
      modifies this, socket
      ensures Moved(socket)
      ensures !misframed && r.Idle? ==> MessagesIn(log) == MessagesOf(Received())
      ensures !misframed ==> !r.Panicked? && !r.Diverged?
      ensures r.Answered? && !ZeroFront(old(buffer)) ==>
                |buffer| + |Flatten(socket.chunks)| < old(|buffer| + |Flatten(socket.chunks)|)
      ensures r.Answered? && ZeroFront(old(buffer)) ==> buffer == old(buffer) && socket.chunks == old(socket.chunks)
      ensures Told(r) && (AttentionAtFront(old(buffer)) ==> r == Answered(AttentionAck))
      ensures r.Idle? ==> log == old(log) && !ZeroFront(buffer)
      ensures r.Diverged? <==> StuckOn(old(buffer)) && old(pendingBatch) == []
      ensures r.Diverged? ==> ZeroFront(buffer)
      ensures ZeroFront(old(buffer)) ==>
                && misframed && !r.Idle?
                && (r.Answered? <==> Repeats(old(buffer), old(pendingBatch) != [], old(Phase(log))))
                && (r.Answered? ==> Repeats(buffer, pendingBatch != [], Phase(log)))
      ensures r.Diverged? ==> StuckOn(buffer) && pendingBatch == []
      ensures Undelayed(config) ==>
                Coming(r) == DrainEnd(config, old(Phase(log)), old(buffer), old(pendingBatch))
      ensures PanicsOn(old(buffer), old(pendingBatch) != []) ==> r.Panicked?
      ensures Undelayed(config) && !misframed ==>
                && socket.chunks == old(socket.chunks) && Received() == old(Received())
                && (!r.Idle? ==> |log| == |old(log)| + 1)
    {
      hide Phase, AllEarned, MessagesOf, PacketsOf, Flatten, PanicsOn, StuckOn, ZeroFront, AttentionAtFront;
      hide InStep, WellFramed, OtherFront, MessagesIn, DrainEnd, VerdictOn;
      hide FrameEnd, FrameIs, TurnOf, Repeats, Judged, Told, Coming, FramingValid;
      FrontCases(buffer, pendingBatch != []);
      ghost var phase := Phase(log);
      var f := NextFrame(phase);
      if ZeroFront(old(buffer)) {
        ZeroFrame(config, phase, old(buffer), old(pendingBatch), f, pendingBatch);
      }
      match f {
        case NeedMore =>
          if !misframed {
            AllTaken();
          }
          Halted(phase, f, Idle);
          return Idle;
        case FramePanic =>
          Halted(phase, f, Panicked);
          return Panicked;
        case FrameStuck =>
          Halted(phase, f, Diverged);
          return Diverged;
        case Withdrawal =>
          r := Withdraw(phase);
        case Whole(t, data) =>
          ghost var rest := buffer;
          r := Dispatch(socket, t, data);
          if Undelayed(config) {
            ComingAfter(phase, f, rest, r);
          }
      }
    }

    /** With no complete packet left, all messages received are taken. */
    lemma AllTaken()
      requires FramingValid() && !misframed && PacketsOf(buffer) == []
      ensures messages == MessagesOf(Received())
    {
      hide InStep, MessagesOf, PacketsOf;
      TakenMessages(State(), []);
    }

    /** The ends without a message. */
    lemma Halted(phase: LoginPhase, f: Frame, r: Outcome)
      requires (f.NeedMore? && r.Idle?) || (f.FramePanic? && r.Panicked?) || (f.FrameStuck? && r.Diverged?)
      ensures Told(r) && Coming(r) == FrameEnd(config, phase, f, buffer)
    {
    }

    /** The end a judged message leads to. */
    lemma ComingAfter(phase: LoginPhase, f: Frame, rest: seq<byte>, r: Outcome)
      requires f.Whole? && Judged(VerdictOn(config, phase, f.ptype, f.data), r) && pendingBatch == []
      requires r.Answered? ==> buffer == rest
      ensures Coming(r) == FrameEnd(config, phase, f, rest)
    {
      hide DrainEnd, VerdictOn, Phase;
    }

    lemma ToldLast(r: Outcome)
      requires r.Answered? && Told(r)
      ensures log != [] && log[|log| - 1].reply != Dropped
    {
    }

    /** Drains the buffer: packets are processed as long as they are answered. */
    method Drain(socket: Socket) returns (r: Outcome)
      requires Valid() && socket.Valid()
      modifies this, socket
      ensures Moved(socket) && !r.Answered?
      ensures !misframed && r.Idle? ==> MessagesIn(log) == MessagesOf(Received())
      ensures !misframed ==> r.Idle? || r.Silent?
      ensures r.Silent? ==> Told(r)
      ensures r.Diverged? <==> !r.Silent? && !r.Panicked? && Endless(buffer, pendingBatch != [], Phase(log))
      ensures ZeroFront(old(buffer)) ==>
                (r.Diverged? <==> Endless(old(buffer), old(pendingBatch) != [], old(Phase(log))))
      ensures Undelayed(config) ==>
                Coming(r) == DrainEnd(config, old(Phase(log)), old(buffer), old(pendingBatch))
      ensures Undelayed(config) && !misframed ==>
                && socket.chunks == old(socket.chunks) && Received() == old(Received())
                && |old(log)| <= |MessagesOf(Received())| && |log| == Reach(MessagesOf(Received()), |old(log)|)
    {
      hide InStep, WellFramed, Phase, AllEarned, MessagesOf, LoginValid, FramingValid, Told, MessagesIn;
      hide ZeroFront, AttentionAtFront, StuckOn, PanicsOn, Reach, Repeats, DrainEnd;
      ghost var ms := MessagesOf(Received());
      Concluded();
      while true
        invariant Moved(socket)
        invariant ZeroFront(old(buffer)) ==>
                    buffer == old(buffer) && pendingBatch == old(pendingBatch) && Phase(log) == old(Phase(log))
        invariant forall i :: |old(log)| <= i < |log| ==> log[i].reply != Dropped
        invariant Undelayed(config) ==>
                    DrainEnd(config, Phase(log), buffer, pendingBatch) ==
                    DrainEnd(config, old(Phase(log)), old(buffer), old(pendingBatch))
        invariant Undelayed(config) && !misframed ==>
                    && socket.chunks == old(socket.chunks) && Received() == old(Received())
                    && NoneIgnored(ms, |old(log)|, |log|)
        decreases |buffer| + |Flatten(socket.chunks)|
      {
        var zero := ZeroFront(buffer);
        r := ProcessPacket(socket);
        if Undelayed(config) && !misframed {
          Stepped(r, |old(log)|);
        }
        if !r.Answered? {
          EndlessZero(buffer, pendingBatch != [], Phase(log));
          return;
        }
        ToldLast(r);
        if zero {
          // A packet of length zero that is answered is answered again and again.
          RepeatsLoop(config, Phase(log), buffer, pendingBatch);
          return Diverged;
        }
      }
    }

    /** One more message answered, in terms of the messages received. */
    lemma Stepped(r: Outcome, from: nat)
      requires Valid() && Undelayed(config) && !misframed && Told(r) && from <= |log|
      requires r.Idle? || r.Answered? || r.Silent?
      requires if r.Idle? then MessagesIn(log) == MessagesOf(Received()) else from < |log|
      requires NoneIgnored(MessagesOf(Received()), from, if r.Idle? then |log| else |log| - 1)
      ensures r.Answered? ==> NoneIgnored(MessagesOf(Received()), from, |log|)
      ensures !r.Answered? ==> |log| == Reach(MessagesOf(Received()), from)
    {
      hide Valid, MessagesOf, Answers, IsIgnored, MessagesIn, Told, Reach, Undelayed;
      Concluded();
      var ms := MessagesOf(Received());
      if !r.Idle? {
        LastVerdict(r);
      }
      ReachIs(ms, from, |log|);
    }

    /** Without delays a message is met with silence exactly when it is one of the ignored ones. */
    lemma LastVerdict(r: Outcome)
      requires Valid() && Undelayed(config) && !misframed && Told(r) && log != [] && (r.Answered? || r.Silent?)
      ensures |log| <= |MessagesOf(Received())|
      ensures r.Silent? <==> IsIgnored(MessagesOf(Received())[|log| - 1])
    {
      hide MessagesOf, FramingValid, Phase, Answers, ReplyFor, IsIgnored, Delayable;
      Concluded();
      var n := |log| - 1;
      assert Earned(config, Phase(log[..n]), log[n]);
      NeverLost(config, Phase(log[..n]), log[n].message);
      IgnoredIff(config, Phase(log[..n]), log[n]);
      assert MessagesIn(log)[n] == MessagesOf(Received())[n];
    }

    /** The connection loop. However the client's bytes are cut into reads, and whatever delays and
        interruptions happen, the messages answered are a prefix of those of the whole stream: all of them
        when the stream holds no ignored message, unless the connection closes on a delayed answer, whose drop
        is then the last entry. Without delays the reads alone determine how far it gets, and the answers. */
    method Serve(socket: Socket) returns (r: Outcome)
      requires Valid() && log == [] && Received() == [] && !misframed && socket.Valid()
      modifies this, socket
      ensures Valid()
      ensures WellFramed(Flatten(old(socket.chunks))) ==>
                && (r.Idle? || r.Silent?) && Received() == Flatten(old(socket.chunks))
                && MessagesIn(log) <= MessagesOf(Flatten(old(socket.chunks)))
                && (r.Idle? ==> MessagesIn(log) == MessagesOf(Flatten(old(socket.chunks))))
                && (r.Idle? && Uninterrupted(log) ==> log == Answers(config, MessagesOf(Flatten(old(socket.chunks)))))
      ensures var all := MessagesOf(Flatten(old(socket.chunks)));
              WellFramed(Flatten(old(socket.chunks))) && NoneIgnored(all, 0, |all|) ==>
                (r.Idle? && MessagesIn(log) == all) || (r.Silent? && DroppedAtEnd(log))
      ensures var all := MessagesOf(Flatten(old(socket.chunks)));
              WellFramed(Flatten(old(socket.chunks))) && Undelayed(config) ==>
                log == Answers(config, all[..Reached(old(socket.chunks))])
      ensures r.Silent? ==> Told(r)
      ensures forall i :: 0 <= i < |log| - 1 ==> log[i].reply != Dropped
    {
      hide FramingValid, LoginValid, MessagesIn, MessagesOf, WellFramed, Answers, Uninterrupted, Told, Reached;
      hide Reach, ZeroFront, AttentionAtFront, Undelayed, NoneIgnored, DroppedAtEnd;
      ghost var total := Flatten(socket.chunks);
      assert [] + total == total;
      r := Idle;
      ghost var read: seq<seq<byte>> := [];
      EmptyRun();
      while true
        invariant Valid() && socket.Valid() && Received() + Flatten(socket.chunks) == total
        invariant r.Idle? || r.Silent?
        invariant !misframed && r.Idle? ==> MessagesIn(log) == MessagesOf(Received())
        invariant r.Silent? ==> Told(r)
        invariant forall i :: 0 <= i < |log| && log[i].reply == Dropped ==> i == |log| - 1 && socket.chunks == []
        invariant Undelayed(config) && !misframed ==>
                    read + socket.chunks == old(socket.chunks) && Received() == Flatten(read) && |log| == Reached(read)
        decreases |socket.chunks|
      {
        ghost var chunks := socket.chunks;
        if chunks != [] {
          Regroup(Received(), chunks[0], Flatten(chunks[1..]));
          ReadNext(read, chunks);
        }
        var data := socket.Read();
        if data == [] {
          break;
        }
        Append(data);
        read := read + [data];
        r := Drain(socket);
        if r.Panicked? || r.Diverged? {
          Concluded();
          MisframedTotal(Received(), Flatten(socket.chunks), total);
          return;
        }
      }
      assert Received() + [] == Received();
      assert read + [] == read;
      Concluded();
      if r.Silent? && !misframed {
        SilentEnd(r);
      }
      if Undelayed(config) && !misframed {
        AnswersReach();
      }
    }

    /** A silent end means that the last answer was dropped or that some message received is ignored. */
    lemma SilentEnd(r: Outcome)
      requires Valid() && !misframed && r.Silent? && Told(r)
      ensures var all := MessagesOf(Received()); NoneIgnored(all, 0, |all|) ==> DroppedAtEnd(log)
    {
      hide MessagesOf, FramingValid, Phase, Answers;
      Concluded();
      var n := |log| - 1;
      if log[n].reply != Dropped {
        assert Earned(config, Phase(log[..n]), log[n]);
        IgnoredIff(config, Phase(log[..n]), log[n]);
        assert MessagesIn(log)[n] == MessagesOf(Received())[n];
      }
    }

    /** Without delays the conversation is that of the messages answered. */
    lemma AnswersReach()
      requires Valid() && Undelayed(config) && !misframed
      ensures |log| <= |MessagesOf(Received())| && log == Answers(config, MessagesOf(Received())[..|log|])
    {
      hide MessagesOf, FramingValid, Phase, Answers, ReplyFor;
      Concluded();
      forall i | 0 <= i < |log| ensures log[i].reply != Abandoned && log[i].reply != Dropped {
        assert Earned(config, Phase(log[..i]), log[i]);
        NeverLost(config, Phase(log[..i]), log[i].message);
      }
      assert MessagesIn(log) == MessagesOf(Received())[..|log|];
    }

    /** What a valid state says about the bytes received. */
    lemma Concluded()
      requires Valid()
      ensures if misframed then !WellFramed(Received()) else MessagesIn(log) <= MessagesOf(Received())
      ensures Uninterrupted(log) ==> log == Answers(config, MessagesIn(log))
    {
      hide InStep, MessagesOf, Answers, Uninterrupted, AllEarned;
      if !misframed {
        TakenMessages(State(), []);
        assert taken + buffer + [] == taken + buffer;
      }
      if Uninterrupted(log) {
        AnswersDetermined(config, log);
      }
    }

    lemma EmptyRun()
      requires Valid() && log == [] && Received() == [] && !misframed
      ensures MessagesIn(log) == MessagesOf(Received())
      ensures Reached([]) == 0 && Flatten([]) == []
    {
      assert Received() + [] == Received();
      assert PacketsOf([]) == [];
    }

    lemma MisframedTotal(received: seq<byte>, rest: seq<byte>, total: seq<byte>)
      requires received + rest == total && !WellFramed(received)
      ensures !WellFramed(total)
    {
      if WellFramed(total) {
        WellFramedPrefix(received, rest);
      }
    }
  }
}
