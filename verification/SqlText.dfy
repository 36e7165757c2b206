/** `parse_sql_batch`: the SQL text of a batch body. */
module SqlText {
  import opened ByteCodec
  import opened Packets
  import opened UnicodeText

  type Sql = seq<scalar>

  /** UTF-16LE units; a trailing odd byte is dropped. */
  function Units(s: seq<byte>): (us: seq<u16>)
    ensures |us| == |s| / 2
  {
    if |s| < 2 then [] else [U16(s[..2])] + Units(s[2..])
  }

  predicate IsWhitespace(c: scalar) {
    || 0x09 <= c <= 0x0D || c == 0x20 || c == 0x85 || c == 0xA0 || c == 0x1680 || 0x2000 <= c <= 0x200A
    || c == 0x2028 || c == 0x2029 || c == 0x202F || c == 0x205F || c == 0x3000
  }

  function TrimStart(s: Sql): Sql {
    if s != [] && IsWhitespace(s[0]) then TrimStart(s[1..]) else s
  }

  function TrimEnd(s: Sql): Sql {
    if s != [] && IsWhitespace(s[|s| - 1]) then TrimEnd(s[..|s| - 1]) else s
  }

  datatype BatchText = Text(sql: Sql) | EmptyBatch | ShortBatch | BadHeaders | BadUtf16

  /** Skips the ALL_HEADERS block and decodes the rest. */
  function ParseSqlBatch(data: seq<byte>): BatchText {
    if data == [] then EmptyBatch
    else if |data| < 4 then ShortBatch
    else
      var headers := U32(data[0..4]);
      if headers > |data| then BadHeaders
      else
        match Decode16(Units(data[headers..]))
        case None => BadUtf16
        case Some(text) => Text(TrimEnd(TrimStart(text)))
  }

  function UnitsLe(us: seq<u16>): seq<byte> {
    if us == [] then [] else Le16(us[0]) + UnitsLe(us[1..])
  }

  lemma {:induction false} UnitsRoundTrip(us: seq<u16>)
    ensures Units(UnitsLe(us)) == us
  {
    if us != [] {
      var s := UnitsLe(us);
      assert s[..2] == Le16(us[0]) && s[2..] == UnitsLe(us[1..]);
      U16Le16(us[0]);
      UnitsRoundTrip(us[1..]);
    }
  }

  /** A client's batch body: a header block that counts its own length, then the text in UTF-16LE. */
  function BatchBody(headers: seq<byte>, text: Sql): seq<byte> {
    Le32(4 + |headers|) + headers + UnitsLe(Encode16All(text))
  }

  /** Whatever headers a client sends, the server reads back the text it sent, trimmed. */
  lemma BatchTextRoundTrip(headers: seq<byte>, text: Sql)
    requires 4 + |headers| < 0x1_0000_0000
    ensures ParseSqlBatch(BatchBody(headers, text)) == Text(TrimEnd(TrimStart(text)))
  {
    hide Le32, U32, Decode16, Units, UnitsLe, Encode16All, TrimStart, TrimEnd;
    var data := BatchBody(headers, text);
    var tail := UnitsLe(Encode16All(text));
    assert data[0..4] == Le32(4 + |headers|);
    U32Le32(4 + |headers|);
    assert data[4 + |headers|..] == tail;
    UnitsRoundTrip(Encode16All(text));
    Decode16RoundTrip(text);
  }

  /** However the body of a batch is divided into packets, the server reads the same SQL text. */
  lemma DividedBatchText(fragments: seq<Packet>, last: Packet, headers: seq<byte>, text: Sql)
    requires forall i :: 0 <= i < |fragments| ==> IsFragment(fragments[i]) && PacketOk(fragments[i])
    requires last.header.ptype == SqlBatch && !IsIgnore(last.header.status) && IsEndOfMessage(last.header.status)
    requires PacketOk(last) && Bodies(fragments) + last.body == BatchBody(headers, text)
    requires 4 + |headers| < 0x1_0000_0000
    ensures var ms := MessagesOf(StreamBytes(fragments + [last]));
            && |ms| == 1 && ms[0].Message? && ms[0].ptype == SqlBatch
            && ParseSqlBatch(ms[0].body) == Text(TrimEnd(TrimStart(text)))
  {
    hide MessagesOf, StreamBytes, Bodies, BatchBody, ParseSqlBatch;
    DividedBatch(fragments, last);
    BatchTextRoundTrip(headers, text);
  }
}
