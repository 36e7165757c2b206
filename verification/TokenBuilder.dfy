/** `build_query_results` and the builders below it, appending to a growing buffer. */
module TokenBuilder {
  import opened ByteCodec
  import opened UnicodeText
  import opened SqlText
  import opened Packets
  import opened TokenStream
  import opened TokenRoundTrip

  lemma {:induction false} ItemsBytesAppend(a: seq<Item>, b: seq<Item>)
    ensures ItemsBytes(a + b) == ItemsBytes(a) + ItemsBytes(b)
  {
    hide ItemBytes;
    if a == [] {
      assert a + b == b;
    } else {
      assert (a + b)[1..] == a[1..] + b;
      ItemsBytesAppend(a[1..], b);
      assert ItemBytes(a[0]) + (ItemsBytes(a[1..]) + ItemsBytes(b))
          == ItemBytes(a[0]) + ItemsBytes(a[1..]) + ItemsBytes(b);
    }
  }

  lemma ItemsBytesOne(i: Item)
    ensures ItemsBytes([i]) == ItemBytes(i)
  {
    assert [i][1..] == [];
    assert ItemBytes(i) + [] == ItemBytes(i);
  }

  /** Units one by one, little-endian. */
  method PutUnits(buf: seq<byte>, us: seq<u16>) returns (out: seq<byte>)
    ensures out == buf + UnitsLe(us)
  {
    out := buf;
    assert us[0..] == us;
    for i := 0 to |us|
      invariant out + UnitsLe(us[i..]) == buf + UnitsLe(us)
    {
      hide Le16;
      assert us[i..][1..] == us[i + 1..];
      Regroup(out, Le16(us[i]), UnitsLe(us[i + 1..]));
      out := out + Le16(us[i]);
    }
    assert us[|us|..] == [];
    assert out + [] == out;
  }

  /** Chunks of a partially length-prefixed value; an empty chunk would end it early. */
  predicate Writable(v: ColumnValue) {
    match v
    case NVarCharMaxValue(chunks) => forall i :: 0 <= i < |chunks| ==> 0 < |chunks[i]| < 0x8000_0000
    case VarCharMaxValue(chunks) => forall i :: 0 <= i < |chunks| ==> 0 < |chunks[i]| < 0x1_0000_0000
    case VarBinaryMaxValue(chunks) => forall i :: 0 <= i < |chunks| ==> 0 < |chunks[i]| < 0x1_0000_0000
    case _ => true
  }

  method WriteByteChunks(buf: seq<byte>, chunks: seq<seq<byte>>) returns (out: seq<byte>)
    ensures out == buf + PlpBytes(chunks)
  {
    var total := 0;
    assert chunks[..0] == [];
    for i := 0 to |chunks|
      invariant total == |Flatten(chunks[..i])|
    {
      assert chunks[..i + 1] == chunks[..i] + [chunks[i]];
      FlattenSnoc(chunks[..i], chunks[i]);
      total := total + |chunks[i]|;
    }
    assert chunks[..|chunks|] == chunks;
    out := buf + Le64(total);
    ghost var head := out;
    assert chunks[0..] == chunks;
    for i := 0 to |chunks|
      invariant out + PlpChunks(chunks[i..]) == head + PlpChunks(chunks)
    {
      hide Le32;
      assert chunks[i..][1..] == chunks[i + 1..];
      ghost var rest := PlpChunks(chunks[i + 1..]);
      assert out + (Le32(|chunks[i]|) + (chunks[i] + rest)) == out + Le32(|chunks[i]|) + chunks[i] + rest;
      out := out + Le32(|chunks[i]|);
      out := out + chunks[i];
    }
    assert chunks[|chunks|..] == [];
    out := out + Le32(0);
    Regroup(buf, Le64(total), PlpChunks(chunks));
  }

  method WriteUnitChunks(buf: seq<byte>, chunks: seq<seq<u16>>) returns (out: seq<byte>)
    ensures out == buf + PlpBytes(UnitChunks(chunks))
  {
    var total := 0;
    ghost var bytes := UnitChunks(chunks);
    assert bytes[..0] == [];
    for i := 0 to |chunks|
      invariant total == |Flatten(bytes[..i])|
    {
      assert bytes[..i + 1] == bytes[..i] + [bytes[i]];
      FlattenSnoc(bytes[..i], bytes[i]);
      UnitsLeLength(chunks[i]);
      total := total + 2 * |chunks[i]|;
    }
    assert bytes[..|bytes|] == bytes;
    out := buf + Le64(total);
    ghost var head := out;
    assert bytes[0..] == bytes;
    for i := 0 to |chunks|
      invariant out + PlpChunks(bytes[i..]) == head + PlpChunks(bytes)
    {
      hide Le32, UnitsLe;
      assert bytes[i..][1..] == bytes[i + 1..];
      UnitsLeLength(chunks[i]);
      ghost var rest := PlpChunks(bytes[i + 1..]);
      assert out + (Le32(|bytes[i]|) + (bytes[i] + rest)) == out + Le32(2 * |chunks[i]|) + bytes[i] + rest;
      out := out + Le32(2 * |chunks[i]|);
      out := PutUnits(out, chunks[i]);
    }
    assert bytes[|bytes|..] == [];
    out := out + Le32(0);
    Regroup(buf, Le64(total), PlpChunks(bytes));
  }

  /** `ColumnValue::write_to_buffer`. */
  method WriteToBuffer(buf: seq<byte>, v: ColumnValue) returns (out: seq<byte>)
    requires Writable(v)
    ensures out == buf + ValueBytes(v)
  {
    hide Le16, Le32, Le64, PlpBytes, UnitsLe, Encode16All, UnitChunks;
    match v
    case TinyIntValue(x) => out := buf + [1]; out := out + [x];
    case SmallIntValue(x) => out := buf + [2]; out := out + Le16(x);
    case IntValue(x) => out := buf + [4]; out := out + Le32(x);
    case BigIntValue(x) => out := buf + [8]; out := out + Le64(x);
    case NVarCharValue(t) => out := buf + Le16(|Chars(t)|); out := out + Chars(t);
    case NVarCharMaxValue(chunks) => out := WriteUnitChunks(buf, chunks);
    case NVarCharMaxNull => out := buf + Le64(PLP_NULL);
    case VarCharMaxValue(chunks) => out := WriteByteChunks(buf, chunks);
    case VarBinaryMaxValue(chunks) => out := WriteByteChunks(buf, chunks);
    case NullValue => out := buf + [0];
  }

  method WriteRow(buf: seq<byte>, vs: seq<ColumnValue>) returns (out: seq<byte>)
    requires forall i :: 0 <= i < |vs| ==> Writable(vs[i])
    ensures out == buf + ItemBytes(RowItem(vs))
  {
    out := buf + [TOKEN_ROW];
    ghost var head := out;
    assert vs[0..] == vs;
    for i := 0 to |vs|
      invariant out + ValuesBytes(vs[i..]) == head + ValuesBytes(vs)
    {
      hide ValueBytes, Writable;
      assert vs[i..][1..] == vs[i + 1..];
      Regroup(out, ValueBytes(vs[i]), ValuesBytes(vs[i + 1..]));
      out := WriteToBuffer(out, vs[i]);
    }
    assert vs[|vs|..] == [];
    assert out + [] == out;
    Regroup(buf, [TOKEN_ROW], ValuesBytes(vs));
  }

  method WriteColumn(buf: seq<byte>, c: ColumnDefinition) returns (out: seq<byte>)
    ensures out == buf + ColumnBytes(c)
  {
    hide Le16, Le32, UnitsLe, Encode16All, TypeCodeOf, MaxLength;
    out := buf + Le32(0);
    out := out + Le16(0);
    out := out + [TypeCodeOf(c.dataType)];
    ghost var head := out;
    if HasCollation(c.dataType) {
      out := out + Le16(if c.dataType.NVarChar? then MAX_BOUNDED_STRING_BYTES else PLP_TYPE_LENGTH_MARKER);
      out := out + c.collation;
    } else if c.dataType == VarBinaryMax {
      out := out + Le16(PLP_TYPE_LENGTH_MARKER);
    } else {
      out := out + [MaxLength(c.dataType)];
    }
    assert out == head + TypeInfo(c.dataType, c.collation);
    out := out + [|c.name| % 256];
    ghost var before := out;
    out := PutUnits(out, Encode16All(c.name));
    ColumnParts(buf, c, TypeInfo(c.dataType, c.collation));
  }

  lemma ColumnParts(buf: seq<byte>, c: ColumnDefinition, info: seq<byte>)
    requires info == TypeInfo(c.dataType, c.collation)
    ensures buf + Le32(0) + Le16(0) + [TypeCodeOf(c.dataType)] + info + [|c.name| % 256] + Chars(c.name)
         == buf + ColumnBytes(c)
  {
    hide Le16, Le32, UnitsLe, Encode16All, TypeCodeOf, TypeInfo, Chars;
  }

  method WriteColumns(buf: seq<byte>, cs: seq<ColumnDefinition>) returns (out: seq<byte>)
    ensures out == buf + ItemBytes(Columns(cs))
  {
    hide Le16, ColumnBytes;
    out := buf + [TOKEN_COLMETADATA];
    out := out + Le16(|cs|);
    ghost var head := out;
    assert cs[0..] == cs;
    for i := 0 to |cs|
      invariant out + ColumnsBytes(cs[i..]) == head + ColumnsBytes(cs)
    {
      assert cs[i..][1..] == cs[i + 1..];
      Regroup(out, ColumnBytes(cs[i]), ColumnsBytes(cs[i + 1..]));
      out := WriteColumn(out, cs[i]);
    }
    assert cs[|cs|..] == [];
    assert out + [] == out;
    assert buf + [TOKEN_COLMETADATA] + Le16(|cs|) + ColumnsBytes(cs)
        == buf + ([TOKEN_COLMETADATA] + (Le16(|cs|) + ColumnsBytes(cs)));
  }

  function Wrap16(n: nat): u16 { n % 0x1_0000 }

  lemma WrappedSum(a: nat, b: nat, c: nat)
    ensures Le16(Wrap16(14 + Wrap16(a) + Wrap16(b) + Wrap16(c))) == Le16(14 + a + b + c)
  {
    var wrapped, exact := 14 + Wrap16(a) + Wrap16(b) + Wrap16(c), 14 + a + b + c;
    assert exact == wrapped + 0x1_0000 * (a / 0x1_0000 + b / 0x1_0000 + c / 0x1_0000);
    assert Wrap16(wrapped) == Wrap16(exact);
    Le16Wraps(wrapped);
    Le16Wraps(exact);
  }

  lemma InfoLength(n: Notice)
    ensures Le16(Wrap16(14 + Wrap16(2 * |n.message|) + Wrap16(2 * |n.server|) + Wrap16(2 * |n.proc|)))
         == Le16(|NoticeBody(n)|)
  {
    hide Le16, NoticeBody, Wrap16;
    WrappedSum(2 * |n.message|, 2 * |n.server|, 2 * |n.proc|);
    NoticeLength(n);
  }

  /** `build_info_token`: the length is computed from the parts before they are written, in 16 bits. */
  method BuildInfoToken(info: InfoMessage) returns (buf: seq<byte>)
    ensures buf == ItemBytes(InfoItem(info))
  {
    hide Le16, Le32, UnitsLe, Encode16All, Wrap16;
    var msg, srv, proc := Encode16All(info.message), Encode16All(info.serverName), Encode16All(info.procName);
    buf := [TOKEN_INFO];
    var tokenLen := Wrap16(14 + Wrap16(2 * |msg|) + Wrap16(2 * |srv|) + Wrap16(2 * |proc|));
    InfoLength(InfoNotice(info));
    buf := buf + Le16(tokenLen);
    buf := buf + Le32(info.number);
    buf := buf + [info.state];
    buf := buf + [info.severity];
    buf := buf + Le16(|msg|);
    buf := PutUnits(buf, msg);
    buf := buf + [|srv| % 256];
    buf := PutUnits(buf, srv);
    buf := buf + [|proc| % 256];
    buf := PutUnits(buf, proc);
    buf := buf + Le32(info.lineNumber);
    NoticeParts([TOKEN_INFO] + Le16(tokenLen), InfoNotice(info));
    Regroup([TOKEN_INFO], Le16(tokenLen), NoticeBody(InfoNotice(info)));
  }

  lemma NoticeParts(head: seq<byte>, n: Notice)
    ensures head + Le32(n.number) + [n.state] + [n.severity] + Le16(|n.message|) + UnitsLe(n.message)
            + [|n.server| % 256] + UnitsLe(n.server) + [|n.proc| % 256] + UnitsLe(n.proc) + Le32(n.line)
         == head + NoticeBody(n)
  {
    hide Le16, Le32, UnitsLe;
    var m := Le16(|n.message|) + UnitsLe(n.message);
    var s, p := [|n.server| % 256] + UnitsLe(n.server), [|n.proc| % 256] + UnitsLe(n.proc);
    assert m == UsVarChar(n.message) && s == BVarChar(n.server) && p == BVarChar(n.proc);
    var a := head + Le32(n.number) + [n.state] + [n.severity];
    assert a + Le16(|n.message|) + UnitsLe(n.message) == a + m;
    assert a + m + [|n.server| % 256] + UnitsLe(n.server) == a + m + s;
    assert a + m + s + [|n.proc| % 256] + UnitsLe(n.proc) == a + m + s + p;
    assert a + m + s + p + Le32(n.line) == a + (m + (s + (p + Le32(n.line))));
    assert a + (m + (s + (p + Le32(n.line)))) == head + NoticeBody(n);
  }

  /** `build_leading_error_tokens` and `build_terminal_error_tokens`: the length is patched in afterwards. */
  method BuildErrorTokens(error: ServerError, doneStatus: u16) returns (buf: seq<byte>)
    ensures buf == ItemsBytes([ErrorItem(error), DoneItem(doneStatus, 0)])
  {
    hide Le16, Le32, Le64, UnitsLe, Encode16All;
    var msg := Encode16All(error.message);
    buf := [TOKEN_ERROR];
    var lengthPos := |buf|;
    buf := buf + Le16(0);
    buf := buf + Le32(error.number);
    buf := buf + [1];
    buf := buf + [error.severity];
    buf := buf + Le16(|msg|);
    buf := PutUnits(buf, msg);
    buf := buf + [0];
    buf := buf + [0];
    buf := buf + Le32(1);
    ghost var n := ErrorNotice(error);
    EmptyNames(buf, [TOKEN_ERROR] + Le16(0), n);
    var tokenLength := |buf| - lengthPos - 2;
    buf := buf[..lengthPos] + Le16(tokenLength) + buf[lengthPos + 2..];
    assert buf == [TOKEN_ERROR] + Le16(|NoticeBody(n)|) + NoticeBody(n);
    Regroup([TOKEN_ERROR], Le16(|NoticeBody(n)|), NoticeBody(n));
    buf := buf + [TOKEN_DONE];
    buf := buf + Le16(doneStatus);
    buf := buf + Le16(CUR_CMD_SELECT);
    buf := buf + Le64(0);
    ErrorThenDone(error, doneStatus);
  }

  lemma EmptyNames(buf: seq<byte>, head: seq<byte>, n: Notice)
    requires n.server == [] && n.proc == [] && n.state == 1 && n.line == 1
    requires buf
          == head + Le32(n.number) + [1] + [n.severity] + Le16(|n.message|) + UnitsLe(n.message) + [0] + [0] + Le32(1)
    ensures buf == head + NoticeBody(n)
  {
    NoticeParts(head, n);
    hide Le16, Le32;
    assert UnitsLe([]) == [];
    var a := head + Le32(n.number) + [1] + [n.severity] + Le16(|n.message|) + UnitsLe(n.message);
    assert a + [0] + UnitsLe(n.server) + [0] + UnitsLe(n.proc) + Le32(1) == a + [0] + [0] + Le32(1);
  }

  lemma ErrorThenDone(error: ServerError, status: u16)
    ensures ItemsBytes([ErrorItem(error), DoneItem(status, 0)])
         == ItemBytes(ErrorItem(error)) + [TOKEN_DONE] + Le16(status) + Le16(CUR_CMD_SELECT) + Le64(0)
  {
    var e, d := ErrorItem(error), DoneItem(status, 0);
    assert [e, d] == [e] + [d];
    ItemsBytesAppend([e], [d]);
    ItemsBytesOne(e);
    ItemsBytesOne(d);
    hide NoticeBytes, Le16, Le64;
    assert ItemBytes(e) + [TOKEN_DONE] + Le16(status) + Le16(CUR_CMD_SELECT) + Le64(0) == ItemBytes(e) + ItemBytes(d);
  }

  method BuildDoneToken(status: u16, rowCount: nat) returns (token: seq<byte>)
    ensures token == ItemBytes(DoneItem(status, rowCount))
  {
    hide Le16, Le64;
    token := [TOKEN_DONE];
    token := token + Le16(status);
    token := token + Le16(CUR_CMD_SELECT);
    token := token + Le64(rowCount);
  }

  predicate SetWritable(r: QueryResponse) {
    forall i, j :: 0 <= i < |r.rows| && 0 <= j < |r.rows[i]| ==> Writable(r.rows[i][j])
  }

  method AppendInfos(buf: seq<byte>, infos: seq<InfoMessage>) returns (out: seq<byte>)
    ensures out == buf + ItemsBytes(InfoItems(infos))
  {
    out := buf;
    ghost var items := InfoItems(infos);
    assert items[0..] == items;
    for i := 0 to |infos|
      invariant out + ItemsBytes(items[i..]) == buf + ItemsBytes(items)
    {
      hide ItemBytes, Encode16All;
      assert items[i..][1..] == items[i + 1..];
      Regroup(out, ItemBytes(items[i]), ItemsBytes(items[i + 1..]));
      var token := BuildInfoToken(infos[i]);
      out := out + token;
    }
    assert items[|items|..] == [];
    assert out + [] == out;
  }

  method AppendRows(buf: seq<byte>, rows: seq<seq<ColumnValue>>) returns (out: seq<byte>)
    requires forall i, j :: 0 <= i < |rows| && 0 <= j < |rows[i]| ==> Writable(rows[i][j])
    ensures out == buf + ItemsBytes(RowItems(rows))
  {
    out := buf;
    ghost var items := RowItems(rows);
    assert items[0..] == items;
    for i := 0 to |rows|
      invariant out + ItemsBytes(items[i..]) == buf + ItemsBytes(items)
    {
      hide ItemBytes, Writable;
      assert items[i..][1..] == items[i + 1..];
      Regroup(out, ItemBytes(items[i]), ItemsBytes(items[i + 1..]));
      out := WriteRow(out, rows[i]);
    }
    assert items[|items|..] == [];
    assert out + [] == out;
  }

  /** One result set on the wire; classification bytes stand between the column metadata and the rest. */
  function SetBytes(s: ResultSetResponse, trailing: seq<InfoMessage>, more: bool): seq<byte> {
    var rest := ItemsBytes(AfterColumns(s.response, trailing, more));
    ItemBytes(Columns(s.response.columns)) + (s.dataClassification + rest)
  }

  /** A chain of result sets: every one but the last says that more follow. */
  function SetsBytes(sets: seq<ResultSetResponse>, trailing: seq<InfoMessage>): seq<byte> {
    if sets == [] then []
    else if |sets| == 1 then SetBytes(sets[0], trailing, false)
    else SetBytes(sets[0], [], true) + SetsBytes(sets[1..], trailing)
  }

  /** `append_result_set`. */
  method AppendResultSet(result: seq<byte>, r: QueryResponse, dataClassification: seq<byte>,
                         trailing: seq<InfoMessage>, more: bool) returns (out: seq<byte>)
    requires SetWritable(r)
    ensures out == result + SetBytes(ResultSetResponse(r, dataClassification), trailing, more)
  {
    hide Writable, ItemBytes, ItemsBytes, InfoItems, RowItems, AfterColumns;
    out := WriteColumns(result, r.columns);
    out := out + dataClassification;
    ghost var b := out;
    out := AppendInfos(out, r.infoTokens);
    out := AppendRows(out, r.rows);
    out := AppendInfos(out, trailing);
    var status := if more then DONE_MORE else 0;
    var done := BuildDoneToken(status, |r.rows|);
    out := out + done;
    SetParts(b, r, trailing, more);
    ghost var columns, rest := ItemBytes(Columns(r.columns)), ItemsBytes(AfterColumns(r, trailing, more));
    assert result + columns + dataClassification + rest == result + (columns + (dataClassification + rest));
  }

  lemma SetParts(b: seq<byte>, r: QueryResponse, trailing: seq<InfoMessage>, more: bool)
    ensures b + ItemsBytes(InfoItems(r.infoTokens)) + ItemsBytes(RowItems(r.rows)) + ItemsBytes(InfoItems(trailing))
            + ItemBytes(DoneItem(if more then DONE_MORE else 0, |r.rows|))
         == b + ItemsBytes(AfterColumns(r, trailing, more))
  {
    hide ItemBytes, ItemsBytes, InfoItems, RowItems;
    var done := DoneItem(if more then DONE_MORE else 0, |r.rows|);
    var i, rows, t := InfoItems(r.infoTokens), RowItems(r.rows), InfoItems(trailing);
    ItemsBytesAppend(i, rows + (t + [done]));
    ItemsBytesAppend(rows, t + [done]);
    ItemsBytesAppend(t, [done]);
    ItemsBytesOne(done);
  }

  lemma PlainSetBytes(s: ResultSetResponse, trailing: seq<InfoMessage>, more: bool)
    requires s.dataClassification == []
    ensures SetBytes(s, trailing, more) == ItemsBytes(SetItems(s.response, trailing, more))
  {
    hide ItemBytes, ItemsBytes, InfoItems, RowItems;
    var columns, rest := Columns(s.response.columns), AfterColumns(s.response, trailing, more);
    ItemsBytesAppend([columns], rest);
    ItemsBytesOne(columns);
    assert [] + ItemsBytes(rest) == ItemsBytes(rest);
    assert SetItems(s.response, trailing, more) == [columns] + rest;
  }

  /** Without classification bytes the chain is the layout the token reader knows. */
  lemma {:induction false} PlainSetsBytes(sets: seq<ResultSetResponse>, trailing: seq<InfoMessage>)
    requires sets != [] && forall i :: 0 <= i < |sets| ==> sets[i].dataClassification == []
    ensures SetsBytes(sets, trailing) == ItemsBytes(SetsItems(Responses(sets), trailing))
  {
    hide ItemBytes, SetItems, SetBytes;
    if |sets| == 1 {
      PlainSetBytes(sets[0], trailing, false);
    } else {
      PlainSetBytes(sets[0], [], true);
      PlainSetsBytes(sets[1..], trailing);
      assert Responses(sets)[1..] == Responses(sets[1..]);
      ItemsBytesAppend(SetItems(sets[0].response, [], true), SetsItems(Responses(sets[1..]), trailing));
    }
  }

  function Responses(following: seq<ResultSetResponse>): (rs: seq<QueryResponse>)
    ensures |rs| == |following|
    ensures forall i :: 0 <= i < |rs| ==> rs[i] == following[i].response
  {
    seq(|following|, i requires 0 <= i < |following| => following[i].response)
  }

  ghost predicate Unclassified(dataClassification: seq<byte>, following: seq<ResultSetResponse>) {
    dataClassification == [] && forall i :: 0 <= i < |following| ==> following[i].dataClassification == []
  }

  ghost predicate ResponseWritable(first: QueryResponse, following: seq<ResultSetResponse>) {
    SetWritable(first) && forall i :: 0 <= i < |following| ==> SetWritable(following[i].response)
  }

  function Chain(first: QueryResponse, dataClassification: seq<byte>, following: seq<ResultSetResponse>)
    : seq<ResultSetResponse>
  {
    [ResultSetResponse(first, dataClassification)] + following
  }

  lemma SetsBytesSplit(sets: seq<ResultSetResponse>, trailing: seq<InfoMessage>, i: nat)
    requires i < |sets|
    ensures SetsBytes(sets[i..], trailing)
         == SetBytes(sets[i], if i == |sets| - 1 then trailing else [], i < |sets| - 1)
            + SetsBytes(sets[i + 1..], trailing)
  {
    hide SetBytes;
    if i < |sets| - 1 {
      assert sets[i..][1..] == sets[i + 1..];
    } else {
      var b := SetBytes(sets[i], trailing, false);
      assert b + [] == b;
    }
  }

  /** The loop over the result sets: every DONE but the last carries the MORE flag. */
  method AppendSets(result: seq<byte>, first: QueryResponse, dataClassification: seq<byte>,
                    following: seq<ResultSetResponse>, trailing: seq<InfoMessage>) returns (out: seq<byte>)
    requires ResponseWritable(first, following)
    ensures out == result + SetsBytes(Chain(first, dataClassification, following), trailing)
  {
    hide SetWritable, SetBytes, SetsBytes;
    ghost var sets := Chain(first, dataClassification, following);
    var last := |following|;
    out := result;
    assert sets[0..] == sets;
    for index := 0 to last + 1
      invariant out + SetsBytes(sets[index..], trailing) == result + SetsBytes(sets, trailing)
    {
      var response := if index == 0 then first else following[index - 1].response;
      var classified := if index == 0 then dataClassification else following[index - 1].dataClassification;
      var isLast := index == last;
      assert sets[index] == ResultSetResponse(response, classified);
      SetsBytesSplit(sets, trailing, index);
      ghost var before := out;
      out := AppendResultSet(out, response, classified, if isLast then trailing else [], !isLast);
      ghost var piece := SetBytes(sets[index], if isLast then trailing else [], !isLast);
      Regroup(before, piece, SetsBytes(sets[index + 1..], trailing));
    }
    NoSets(trailing);
    assert sets[|sets|..] == [];
    assert out + [] == out;
  }

  lemma NoSets(trailing: seq<InfoMessage>)
    ensures SetsBytes([], trailing) == []
  {
  }

  /** Everything a response puts on the wire. */
  function ResponseBytes(first: QueryResponse, dataClassification: seq<byte>, following: seq<ResultSetResponse>,
                         trailing: seq<InfoMessage>): seq<byte>
  {
    if first.terminalError.Some? then
      ItemsBytes([ErrorItem(first.terminalError.value), DoneItem(DONE_ERROR, 0)])
    else
      (if first.leadingError.Some?
       then ItemsBytes([ErrorItem(first.leadingError.value), DoneItem(DONE_MORE + DONE_ERROR, 0)]) else [])
      + SetsBytes(Chain(first, dataClassification, following), trailing)
  }

  lemma PlainResponseBytes(first: QueryResponse, dataClassification: seq<byte>, following: seq<ResultSetResponse>,
                           trailing: seq<InfoMessage>)
    requires Unclassified(dataClassification, following) || first.terminalError.Some?
    ensures ResponseBytes(first, dataClassification, following, trailing)
         == ItemsBytes(ResponseItems(first, Responses(following), trailing))
  {
    hide ItemsBytes, SetsItems, SetsBytes, ItemBytes;
    if first.terminalError.None? {
      var chain := Chain(first, dataClassification, following);
      PlainSetsBytes(chain, trailing);
      assert Responses(chain) == [first] + Responses(following);
      var sets := SetsItems([first] + Responses(following), trailing);
      if first.leadingError.Some? {
        ItemsBytesAppend([ErrorItem(first.leadingError.value), DoneItem(DONE_MORE + DONE_ERROR, 0)], sets);
      } else {
        assert [] + sets == sets;
        assert [] + ItemsBytes(sets) == ItemsBytes(sets);
      }
    }
  }

  /** `build_query_results`: one packet with the whole response. Where the token reader knows the layout, it
      recovers the response token by token and ends with it. */
  method BuildQueryResults(first: QueryResponse, dataClassification: seq<byte>, following: seq<ResultSetResponse>,
                           trailing: seq<InfoMessage>) returns (packet: seq<byte>)
    requires ResponseWritable(first, following)
    ensures packet == WrapInPacket(TabularResult, ResponseBytes(first, dataClassification, following, trailing))
    ensures (Unclassified(dataClassification, following) || first.terminalError.Some?)
            && ResponseFits(first, Responses(following), trailing) ==>
              var tokens := TokensOf(ResponseItems(first, Responses(following), trailing));
              ReadTokens(packet[PACKET_HEADER_SIZE..], 0, []) == Some(Parsed(tokens, |packet| - PACKET_HEADER_SIZE))
  {
    hide ResponseWritable, ItemsBytes, SetsItems, SetsBytes, ReadTokens, TokensOf, ResponseFits, WriteHeader;
    var result: seq<byte> := [];
    if first.terminalError.Some? {
      result := BuildErrorTokens(first.terminalError.value, DONE_ERROR);
    } else {
      if first.leadingError.Some? {
        result := BuildErrorTokens(first.leadingError.value, DONE_MORE + DONE_ERROR);
      }
      result := AppendSets(result, first, dataClassification, following, trailing);
    }
    packet := WrapInPacket(TabularResult, result);
    assert packet[PACKET_HEADER_SIZE..] == result;
    if (Unclassified(dataClassification, following) || first.terminalError.Some?)
       && ResponseFits(first, Responses(following), trailing) {
      PlainResponseBytes(first, dataClassification, following, trailing);
      ResponseRoundTrip(first, Responses(following), trailing);
    }
  }
}
