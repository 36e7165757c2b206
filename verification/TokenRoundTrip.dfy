/** Reading a built response recovers every token and stops at its last DONE. */
module TokenRoundTrip {
  import opened ByteCodec
  import opened UnicodeText
  import opened SqlText
  import opened TokenStream

  // What the reader should see

  function WireOf(v: ColumnValue): WireValue {
    match v
    case TinyIntValue(x) => WireInt(1, x)
    case SmallIntValue(x) => WireInt(2, x)
    case IntValue(x) => WireInt(4, x)
    case BigIntValue(x) => WireInt(8, x)
    case NVarCharValue(t) => WireChars(Encode16All(t))
    case NVarCharMaxValue(chunks) => WireChars(FlattenUnits(chunks))
    case NVarCharMaxNull => WireNull
    case VarCharMaxValue(chunks) => WireBytes(Flatten(chunks))
    case VarBinaryMaxValue(chunks) => WireBytes(Flatten(chunks))
    case NullValue => WireNull
  }

  function FlattenUnits(chunks: seq<seq<u16>>): seq<u16> {
    if chunks == [] then [] else chunks[0] + FlattenUnits(chunks[1..])
  }

  function WireRow(vs: seq<ColumnValue>): (ws: seq<WireValue>)
    ensures |ws| == |vs|
  {
    if vs == [] then [] else [WireOf(vs[0])] + WireRow(vs[1..])
  }

  predicate HasCollation(t: SqlDataType) { t.NVarChar? || t.NVarCharMax? || t.VarCharMax? }

  function WireColumnOf(c: ColumnDefinition): WireColumn {
    WireColumn(c.dataType, if HasCollation(c.dataType) then c.collation else [], Encode16All(c.name))
  }

  function WireColumns(cs: seq<ColumnDefinition>): (ws: seq<WireColumn>)
    ensures |ws| == |cs|
  {
    if cs == [] then [] else [WireColumnOf(cs[0])] + WireColumns(cs[1..])
  }

  function TokenOf(i: Item): Token {
    match i
    case Columns(cs) => ColMetadata(WireColumns(cs))
    case RowItem(vs) => Row(WireRow(vs))
    case InfoItem(info) => Info(InfoNotice(info))
    case ErrorItem(e) => ErrorToken(ErrorNotice(e))
    case DoneItem(status, n) => Done(status, n % 0x1_0000_0000_0000_0000)
  }

  function TokensOf(items: seq<Item>): (ts: seq<Token>)
    ensures |ts| == |items|
  {
    if items == [] then [] else [TokenOf(items[0])] + TokensOf(items[1..])
  }

  // When a response can be written faithfully

  predicate Bmp(name: seq<scalar>) { forall i :: 0 <= i < |name| ==> name[i] <= 0xFFFF }

  predicate NameFits(name: seq<scalar>) { Bmp(name) && |name| < 256 }

  /** The name length byte is the unit count exactly for names of at most 255 characters of the basic plane. */
  lemma {:induction false} UnitCount(name: seq<scalar>)
    ensures |Encode16All(name)| >= |name|
    ensures |Encode16All(name)| == |name| <==> Bmp(name)
  {
    if name != [] {
      UnitCount(name[1..]);
      assert Bmp(name) <==> name[0] <= 0xFFFF && Bmp(name[1..]) by {
        if name[0] <= 0xFFFF && Bmp(name[1..]) {
          forall i | 0 <= i < |name| ensures name[i] <= 0xFFFF {
            assert i > 0 ==> name[i] == name[1..][i - 1];
          }
        }
      }
    }
  }

  lemma NameLengthIff(name: seq<scalar>)
    ensures |name| % 256 == |Encode16All(name)| <==> NameFits(name)
  {
    UnitCount(name);
  }

  /** One character outside the basic plane: the length byte says one, two units follow. */
  lemma SupplementaryNameMiscounted()
    ensures |[0x1F600]| % 256 != |Encode16All([0x1F600])|
  {
    NameLengthIff([0x1F600]);
  }

  predicate ValueFits(v: ColumnValue) {
    match v
    case NVarCharValue(t) => 2 * |Encode16All(t)| < 0x1_0000
    case NVarCharMaxValue(chunks) => PlpFits(UnitChunks(chunks))
    case VarCharMaxValue(chunks) => PlpFits(chunks)
    case VarBinaryMaxValue(chunks) => PlpFits(chunks)
    case _ => true
  }

  predicate PlpFits(chunks: seq<seq<byte>>) {
    && |Flatten(chunks)| < PLP_NULL
    && forall i :: 0 <= i < |chunks| ==> 0 < |chunks[i]| < 0x1_0000_0000
  }

  predicate Matches(v: ColumnValue, t: SqlDataType) {
    match v
    case NVarCharValue(_) => t.NVarChar?
    case NVarCharMaxValue(_) => t.NVarCharMax?
    case NVarCharMaxNull => t.NVarCharMax? || t.VarCharMax? || t.VarBinaryMax?
    case VarCharMaxValue(_) => t.VarCharMax? || t.VarBinaryMax?
    case VarBinaryMaxValue(_) => t.VarCharMax? || t.VarBinaryMax?
    case _ => IsIntN(t)
  }

  predicate NoticeFits(n: Notice) {
    |n.server| < 256 && |n.proc| < 256 && 14 + 2 * (|n.message| + |n.server| + |n.proc|) < 0x1_0000
  }

  predicate RowFits(vs: seq<ColumnValue>, types: seq<SqlDataType>) {
    |vs| == |types| && forall i :: 0 <= i < |vs| ==> Matches(vs[i], types[i]) && ValueFits(vs[i])
  }

  predicate ItemFits(i: Item, cols: seq<WireColumn>) {
    match i
    case Columns(cs) => |cs| < NO_METADATA && forall k :: 0 <= k < |cs| ==> NameFits(cs[k].name)
    case RowItem(vs) => RowFits(vs, Types(cols))
    case InfoItem(info) => NoticeFits(InfoNotice(info))
    case ErrorItem(e) => NoticeFits(ErrorNotice(e))
    case DoneItem(_, n) => n < 0x1_0000_0000_0000_0000
  }

  /** Every item fits, in the column context the items before it leave. */
  predicate ItemsFit(items: seq<Item>, cols: seq<WireColumn>)
    decreases |items|
  {
    items == [] || (ItemFits(items[0], cols) && ItemsFit(items[1..], ContextAfter(cols, TokenOf(items[0]))))
  }

  // Values

  lemma ReadBytesAt(buf: seq<byte>, pos: nat, s: seq<byte>)
    requires At(buf, pos, s)
    ensures ReadBytes(buf, pos, |s|) == Some(s)
  {
  }

  lemma {:induction false} UnitsLeLength(us: seq<u16>)
    ensures |UnitsLe(us)| == 2 * |us|
  {
    if us != [] {
      UnitsLeLength(us[1..]);
    }
  }

  lemma {:induction false} UnitsLeAppend(a: seq<u16>, b: seq<u16>)
    ensures UnitsLe(a + b) == UnitsLe(a) + UnitsLe(b)
  {
    if a == [] {
      assert a + b == b;
    } else {
      assert (a + b)[1..] == a[1..] + b;
      UnitsLeAppend(a[1..], b);
    }
  }

  lemma {:induction false} FlattenUnitChunks(chunks: seq<seq<u16>>)
    ensures Flatten(UnitChunks(chunks)) == UnitsLe(FlattenUnits(chunks))
  {
    if chunks != [] {
      assert UnitChunks(chunks)[1..] == UnitChunks(chunks[1..]);
      FlattenUnitChunks(chunks[1..]);
      UnitsLeAppend(chunks[0], FlattenUnits(chunks[1..]));
    }
  }

  /** The value read does not depend on where the chunk boundaries were. */
  lemma {:induction false} ReadChunksAt(buf: seq<byte>, pos: nat, chunks: seq<seq<byte>>)
    requires forall i :: 0 <= i < |chunks| ==> 0 < |chunks[i]| < 0x1_0000_0000
    requires At(buf, pos, PlpChunks(chunks))
    ensures ReadChunks(buf, pos) == Some(Parsed(Flatten(chunks), pos + |PlpChunks(chunks)|))
    decreases |chunks|
  {
    hide At, Le32, ReadU32, ReadBytes;
    if chunks == [] {
      ReadU32At(buf, pos, 0);
    } else {
      var c, rest := chunks[0], PlpChunks(chunks[1..]);
      AtConcat(buf, pos, Le32(|c|), c + rest);
      AtConcat(buf, pos + 4, c, rest);
      ReadU32At(buf, pos, |c|);
      ReadBytesAt(buf, pos + 4, c);
      ReadChunksAt(buf, pos + 4 + |c|, chunks[1..]);
    }
  }

  lemma ReadPlpAt(buf: seq<byte>, pos: nat, chunks: seq<seq<byte>>)
    requires PlpFits(chunks) && At(buf, pos, PlpBytes(chunks))
    ensures ReadPlp(buf, pos) == Some(Parsed(Some(Flatten(chunks)), pos + |PlpBytes(chunks)|))
  {
    hide At, Le64, ReadU64, ReadChunks, PlpChunks, Flatten;
    AtConcat(buf, pos, Le64(|Flatten(chunks)|), PlpChunks(chunks));
    ReadU64At(buf, pos, |Flatten(chunks)|);
    ReadChunksAt(buf, pos + 8, chunks);
  }

  lemma Signed64Le64(buf: seq<byte>, pos: nat, v: i64)
    requires At(buf, pos, Le64(v))
    ensures ReadU64(buf, pos).Some? && Signed64(ReadU64(buf, pos).value) == v
  {
    hide Le64, At, ReadU64;
    ReadU64At(buf, pos, v);
  }

  lemma ReadIntNAt(buf: seq<byte>, pos: nat, v: ColumnValue)
    requires v.TinyIntValue? || v.SmallIntValue? || v.IntValue? || v.BigIntValue? || v.NullValue?
    requires At(buf, pos, ValueBytes(v))
    ensures ReadIntN(buf, pos) == Some(Parsed(WireOf(v), pos + |ValueBytes(v)|))
  {
    hide At, Le16, Le32, Le64, ReadU8, ReadU16, ReadU32, ReadU64, Signed16, Signed32, Signed64;
    match v
    case TinyIntValue(x) => AtConcat(buf, pos, [1], [x]); ReadU8At(buf, pos, 1); ReadU8At(buf, pos + 1, x);
    case SmallIntValue(x) =>
      AtConcat(buf, pos, [2], Le16(x)); ReadU8At(buf, pos, 2); ReadU16At(buf, pos + 1, x); Signed16Le16(x); U16Le16(x);
    case IntValue(x) =>
      AtConcat(buf, pos, [4], Le32(x)); ReadU8At(buf, pos, 4); ReadU32At(buf, pos + 1, x); Signed32Le32(x); U32Le32(x);
    case BigIntValue(x) => AtConcat(buf, pos, [8], Le64(x)); ReadU8At(buf, pos, 8); Signed64Le64(buf, pos + 1, x);
    case NullValue => ReadU8At(buf, pos, 0);
  }

  lemma ReadValueAt(buf: seq<byte>, pos: nat, v: ColumnValue, t: SqlDataType)
    requires Matches(v, t) && ValueFits(v) && At(buf, pos, ValueBytes(v))
    ensures ReadValue(buf, pos, t) == Some(Parsed(WireOf(v), pos + |ValueBytes(v)|))
  {
    hide At, Le16, Le64, ReadU16, ReadU64, ReadIntN, ReadPlp, ReadBytes, PlpBytes, Flatten, FlattenUnits, UnitsLe;
    hide Units, Encode16All, PlpFits;
    if IsIntN(t) {
      ReadIntNAt(buf, pos, v);
    } else {
      match v
      case NVarCharValue(text) =>
        UnitsLeLength(Encode16All(text));
        AtConcat(buf, pos, Le16(|Chars(text)|), Chars(text));
        ReadU16At(buf, pos, |Chars(text)|);
        ReadBytesAt(buf, pos + 2, Chars(text));
        UnitsRoundTrip(Encode16All(text));
      case NVarCharMaxValue(chunks) =>
        ReadPlpAt(buf, pos, UnitChunks(chunks));
        FlattenUnitChunks(chunks);
        UnitsRoundTrip(FlattenUnits(chunks));
      case NVarCharMaxNull => NullPlpAt(buf, pos);
      case VarCharMaxValue(chunks) => ReadPlpAt(buf, pos, chunks);
      case VarBinaryMaxValue(chunks) => ReadPlpAt(buf, pos, chunks);
    }
  }

  lemma NullPlpAt(buf: seq<byte>, pos: nat)
    requires At(buf, pos, Le64(PLP_NULL))
    ensures ReadPlp(buf, pos) == Some(Parsed(None, pos + 8))
  {
    hide At, Le64, ReadU64;
    ReadU64At(buf, pos, PLP_NULL);
  }

  lemma {:induction false} ReadChunksSpan(buf: seq<byte>, pos: nat)
    ensures var r := ReadChunks(buf, pos); r.Some? ==> r.value.next >= pos + 4 + |r.value.item|
    decreases |buf| - pos
  {
    hide ReadU32;
    var len := ReadU32(buf, pos);
    if len.Some? && len.value > 0 && ReadBytes(buf, pos + 4, len.value).Some? {
      ReadChunksSpan(buf, pos + 4 + len.value);
    }
  }

  lemma {:induction false} PlpChunksSpan(chunks: seq<seq<byte>>)
    ensures |PlpChunks(chunks)| >= 4 + |Flatten(chunks)|
  {
    if chunks != [] {
      PlpChunksSpan(chunks[1..]);
    }
  }

  /** A value reads back exactly in the columns it matches. In particular a plain NULL under a character or MAX
      column does not: the one zero byte written for it is read as a part of a longer length field. */
  lemma ReadsBackIff(buf: seq<byte>, pos: nat, v: ColumnValue, t: SqlDataType)
    requires ValueFits(v) && At(buf, pos, ValueBytes(v))
    ensures ReadValue(buf, pos, t) == Some(Parsed(WireOf(v), pos + |ValueBytes(v)|)) <==> Matches(v, t)
  {
    hide At, Le16, Le32, ReadU16, ReadU64, ReadU32, Flatten, FlattenUnits, UnitsLe, PlpFits;
    hide ReadChunks, PlpChunks, Encode16All;
    if Matches(v, t) {
      ReadValueAt(buf, pos, v, t);
    } else {
      ReadChunksSpan(buf, pos + 8);
      match v
      case NVarCharValue(text) => UnitsLeLength(Encode16All(text));
      case NVarCharMaxValue(chunks) =>
        PlpChunksSpan(UnitChunks(chunks));
        FlattenUnitChunks(chunks);
        UnitsLeLength(FlattenUnits(chunks));
      case NullValue =>
        if t.NVarChar? {
          NoNullLength(buf, pos);
        }
      case _ =>
    }
  }

  /** A length field that starts with a zero byte is not the marker of a null string. */
  lemma NoNullLength(buf: seq<byte>, pos: nat)
    requires At(buf, pos, [0])
    ensures ReadU16(buf, pos) != Some(PLP_TYPE_LENGTH_MARKER)
  {
    assert buf[pos] == [0][0];
  }

  lemma {:induction false} ReadValuesAt(buf: seq<byte>, pos: nat, vs: seq<ColumnValue>, types: seq<SqlDataType>)
    requires RowFits(vs, types) && At(buf, pos, ValuesBytes(vs))
    ensures ReadValues(buf, pos, types) == Some(Parsed(WireRow(vs), pos + |ValuesBytes(vs)|))
    decreases |vs|
  {
    hide At, ReadValue, ValueBytes, WireOf, Matches, ValueFits;
    if vs != [] {
      AtConcat(buf, pos, ValueBytes(vs[0]), ValuesBytes(vs[1..]));
      ReadValueAt(buf, pos, vs[0], types[0]);
      ReadValuesAt(buf, pos + |ValueBytes(vs[0])|, vs[1..], types[1..]);
    }
  }

  // Columns

  lemma ReadTypeInfoAt(buf: seq<byte>, pos: nat, t: SqlDataType, c: collation)
    requires At(buf, pos, [TypeCodeOf(t)] + TypeInfo(t, c))
    ensures ReadTypeInfo(buf, pos) == Some(Parsed((t, if HasCollation(t) then c else []), pos + 1 + |TypeInfo(t, c)|))
  {
    hide At, Le16, ReadU8, ReadU16, ReadBytes;
    AtConcat(buf, pos, [TypeCodeOf(t)], TypeInfo(t, c));
    ReadU8At(buf, pos, TypeCodeOf(t));
    if IsIntN(t) {
      ReadU8At(buf, pos + 1, MaxLength(t));
    } else {
      var len := if t.NVarChar? then MAX_BOUNDED_STRING_BYTES else PLP_TYPE_LENGTH_MARKER;
      if t.VarBinaryMax? {
        ReadU16At(buf, pos + 1, len);
      } else {
        AtConcat(buf, pos + 1, Le16(len), c);
        ReadU16At(buf, pos + 1, len);
        ReadBytesAt(buf, pos + 3, c);
      }
    }
  }

  lemma ReadBVarCharAt(buf: seq<byte>, pos: nat, us: seq<u16>)
    requires |us| < 256 && At(buf, pos, BVarChar(us))
    ensures ReadBVarChar(buf, pos) == Some(Parsed(us, pos + |BVarChar(us)|))
  {
    hide At, ReadU8, ReadBytes, Units, UnitsLe;
    UnitsLeLength(us);
    AtConcat(buf, pos, [|us| % 256], UnitsLe(us));
    ReadU8At(buf, pos, |us|);
    ReadBytesAt(buf, pos + 1, UnitsLe(us));
    UnitsRoundTrip(us);
  }

  lemma ReadUsVarCharAt(buf: seq<byte>, pos: nat, us: seq<u16>)
    requires |us| < 0x1_0000 && At(buf, pos, UsVarChar(us))
    ensures ReadUsVarChar(buf, pos) == Some(Parsed(us, pos + |UsVarChar(us)|))
  {
    hide At, Le16, ReadU16, ReadBytes, Units, UnitsLe;
    UnitsLeLength(us);
    AtConcat(buf, pos, Le16(|us|), UnitsLe(us));
    ReadU16At(buf, pos, |us|);
    ReadBytesAt(buf, pos + 2, UnitsLe(us));
    UnitsRoundTrip(us);
  }

  lemma ReadColumnAt(buf: seq<byte>, pos: nat, c: ColumnDefinition)
    requires NameFits(c.name) && At(buf, pos, ColumnBytes(c))
    ensures ReadColumn(buf, pos) == Some(Parsed(WireColumnOf(c), pos + |ColumnBytes(c)|))
  {
    hide At, Le16, Le32, ReadTypeInfo, ReadBVarChar, TypeInfo, UnitsLe, Encode16All, TypeCodeOf, NameFits;
    NameLengthIff(c.name);
    var name := [|c.name| % 256] + Chars(c.name);
    var code, info := [TypeCodeOf(c.dataType)], TypeInfo(c.dataType, c.collation);
    AtConcat(buf, pos, Le32(0), Le16(0) + (code + (info + name)));
    AtConcat(buf, pos + 4, Le16(0), code + (info + name));
    assert code + (info + name) == (code + info) + name;
    AtConcat(buf, pos + 6, code + info, name);
    ReadTypeInfoAt(buf, pos + 6, c.dataType, c.collation);
    assert name == BVarChar(Encode16All(c.name));
    ReadBVarCharAt(buf, pos + 7 + |info|, Encode16All(c.name));
  }

  lemma {:induction false} ReadColumnsAt(buf: seq<byte>, pos: nat, cs: seq<ColumnDefinition>)
    requires forall k :: 0 <= k < |cs| ==> NameFits(cs[k].name)
    requires At(buf, pos, ColumnsBytes(cs))
    ensures ReadColumns(buf, pos, |cs|) == Some(Parsed(WireColumns(cs), pos + |ColumnsBytes(cs)|))
    decreases |cs|
  {
    hide At, ReadColumn, ColumnBytes, WireColumnOf, NameFits;
    if cs != [] {
      AtConcat(buf, pos, ColumnBytes(cs[0]), ColumnsBytes(cs[1..]));
      ReadColumnAt(buf, pos, cs[0]);
      ReadColumnsAt(buf, pos + |ColumnBytes(cs[0])|, cs[1..]);
    }
  }

  // Notices

  lemma NoticeLength(n: Notice)
    ensures |NoticeBody(n)| == 14 + 2 * (|n.message| + |n.server| + |n.proc|)
  {
    hide Le32, Le16, UnitsLe;
    UnitsLeLength(n.message);
    UnitsLeLength(n.server);
    UnitsLeLength(n.proc);
  }

  lemma ReadNoticeAt(buf: seq<byte>, pos: nat, n: Notice)
    requires NoticeFits(n) && At(buf, pos, Le16(|NoticeBody(n)|) + NoticeBody(n))
    ensures ReadNotice(buf, pos) == Some(Parsed(n, pos + 2 + |NoticeBody(n)|))
  {
    hide At, Le16, Le32, ReadU8, ReadU16, ReadU32, ReadBVarChar, ReadUsVarChar, UsVarChar, BVarChar;
    NoticeLength(n);
    var t5 := BVarChar(n.proc) + Le32(n.line);
    var t4 := BVarChar(n.server) + t5;
    var t3 := UsVarChar(n.message) + t4;
    AtConcat(buf, pos, Le16(|NoticeBody(n)|), NoticeBody(n));
    AtConcat(buf, pos + 2, Le32(n.number), [n.state] + ([n.severity] + t3));
    AtConcat(buf, pos + 6, [n.state], [n.severity] + t3);
    AtConcat(buf, pos + 7, [n.severity], t3);
    AtConcat(buf, pos + 8, UsVarChar(n.message), t4);
    var p4 := pos + 8 + |UsVarChar(n.message)|;
    AtConcat(buf, p4, BVarChar(n.server), t5);
    var p5 := p4 + |BVarChar(n.server)|;
    AtConcat(buf, p5, BVarChar(n.proc), Le32(n.line));
    ReadU16At(buf, pos, |NoticeBody(n)|);
    ReadU32At(buf, pos + 2, n.number);
    ReadU8At(buf, pos + 6, n.state);
    ReadU8At(buf, pos + 7, n.severity);
    ReadUsVarCharAt(buf, pos + 8, n.message);
    ReadBVarCharAt(buf, p4, n.server);
    ReadBVarCharAt(buf, p5, n.proc);
    ReadU32At(buf, p5 + |BVarChar(n.proc)|, n.line);
  }

  // Tokens

  lemma ReadDoneAt(buf: seq<byte>, pos: nat, status: u16, n: u64)
    requires At(buf, pos, Le16(status) + (Le16(CUR_CMD_SELECT) + Le64(n)))
    ensures ReadDone(buf, pos) == Some(Parsed(Done(status, n), pos + 12))
  {
    hide At, Le16, Le64, ReadU16, ReadU64;
    AtConcat(buf, pos, Le16(status), Le16(CUR_CMD_SELECT) + Le64(n));
    AtConcat(buf, pos + 2, Le16(CUR_CMD_SELECT), Le64(n));
    ReadU16At(buf, pos, status);
    ReadU64At(buf, pos + 4, n);
  }

  lemma ReadTokenAt(buf: seq<byte>, pos: nat, i: Item, cols: seq<WireColumn>)
    requires ItemFits(i, cols) && At(buf, pos, ItemBytes(i))
    ensures ReadToken(buf, pos, cols) == Some(Parsed(TokenOf(i), pos + |ItemBytes(i)|))
    ensures |ItemBytes(i)| >= 1
  {
    hide At, Le16, Le64, ReadU8, ReadU16, ReadNotice, ReadDone, ReadColumns, ReadValues, ColumnsBytes, ValuesBytes;
    hide NoticeBody, RowFits, NoticeFits, WireRow, WireColumns, Types, InfoNotice, ErrorNotice;
    match i
    case Columns(cs) =>
      AtConcat(buf, pos, [TOKEN_COLMETADATA], Le16(|cs|) + ColumnsBytes(cs));
      AtConcat(buf, pos + 1, Le16(|cs|), ColumnsBytes(cs));
      ReadU8At(buf, pos, TOKEN_COLMETADATA);
      ReadU16At(buf, pos + 1, |cs|);
      ReadColumnsAt(buf, pos + 3, cs);
    case RowItem(vs) =>
      AtConcat(buf, pos, [TOKEN_ROW], ValuesBytes(vs));
      ReadU8At(buf, pos, TOKEN_ROW);
      ReadValuesAt(buf, pos + 1, vs, Types(cols));
    case InfoItem(info) =>
      var n := InfoNotice(info);
      AtConcat(buf, pos, [TOKEN_INFO], Le16(|NoticeBody(n)|) + NoticeBody(n));
      ReadU8At(buf, pos, TOKEN_INFO);
      ReadNoticeAt(buf, pos + 1, n);
    case ErrorItem(e) =>
      var n := ErrorNotice(e);
      AtConcat(buf, pos, [TOKEN_ERROR], Le16(|NoticeBody(n)|) + NoticeBody(n));
      ReadU8At(buf, pos, TOKEN_ERROR);
      ReadNoticeAt(buf, pos + 1, n);
    case DoneItem(status, n) =>
      AtConcat(buf, pos, [TOKEN_DONE], Le16(status) + (Le16(CUR_CMD_SELECT) + Le64(n)));
      ReadU8At(buf, pos, TOKEN_DONE);
      ReadDoneAt(buf, pos + 1, status, n);
  }

  /** Only the last item is a DONE without the MORE flag. */
  predicate EndsOnce(items: seq<Item>) {
    items != [] && forall k :: 0 <= k < |items| ==> (Final(TokenOf(items[k])) <==> k == |items| - 1)
  }

  lemma {:induction false} ReadTokensAt(buf: seq<byte>, pos: nat, items: seq<Item>, cols: seq<WireColumn>)
    requires EndsOnce(items) && ItemsFit(items, cols) && At(buf, pos, ItemsBytes(items))
    ensures ReadTokens(buf, pos, cols) == Some(Parsed(TokensOf(items), pos + |ItemsBytes(items)|))
    decreases |items|
  {
    hide ReadToken, ItemBytes, TokenOf, ItemFits, ContextAfter;
    var first, rest := items[0], items[1..];
    AtConcat(buf, pos, ItemBytes(first), ItemsBytes(rest));
    ReadTokenAt(buf, pos, first, cols);
    assert Final(TokenOf(first)) <==> |items| == 1;
    if rest == [] {
      assert TokensOf(items) == [TokenOf(first)];
      assert ItemsBytes(items) == ItemBytes(first) + [];
    } else {
      forall k | 0 <= k < |rest| ensures Final(TokenOf(rest[k])) <==> k == |rest| - 1 {
        assert rest[k] == items[k + 1];
      }
      ReadTokensAt(buf, pos + |ItemBytes(first)|, rest, ContextAfter(cols, TokenOf(first)));
    }
  }

  // Whole responses

  /** Infos, rows and trailing infos of a set fit, and rows match its columns. */
  ghost predicate SetFits(r: QueryResponse, trailing: seq<InfoMessage>) {
    && ItemFits(Columns(r.columns), [])
    && (forall i :: 0 <= i < |r.infoTokens| ==> NoticeFits(InfoNotice(r.infoTokens[i])))
    && (forall i :: 0 <= i < |r.rows| ==> RowFits(r.rows[i], Types(WireColumns(r.columns))))
    && (forall i :: 0 <= i < |trailing| ==> NoticeFits(InfoNotice(trailing[i])))
    && |r.rows| < 0x1_0000_0000_0000_0000
  }

  lemma {:induction false} ItemsFitAppend(a: seq<Item>, b: seq<Item>, cols: seq<WireColumn>, after: seq<WireColumn>)
    requires ItemsFit(a, cols) && ItemsFit(b, after)
    requires forall i :: 0 <= i < |a| ==> !a[i].Columns?
    requires after == cols
    ensures ItemsFit(a + b, cols)
    decreases |a|
  {
    hide ItemFits;
    if a == [] {
      assert a + b == b;
    } else {
      assert (a + b)[1..] == a[1..] + b;
      ItemsFitAppend(a[1..], b, cols, after);
    }
  }

  /** Items that are not column metadata fit one by one. */
  lemma {:induction false} PlainItemsFit(items: seq<Item>, cols: seq<WireColumn>)
    requires forall i :: 0 <= i < |items| ==> !items[i].Columns? && ItemFits(items[i], cols)
    ensures ItemsFit(items, cols)
    decreases |items|
  {
    hide ItemFits;
    if items != [] {
      PlainItemsFit(items[1..], cols);
    }
  }

  lemma SetItemsFit(r: QueryResponse, trailing: seq<InfoMessage>, more: bool, tail: seq<Item>, cols: seq<WireColumn>)
    requires SetFits(r, trailing) && forall c: seq<WireColumn> :: ItemsFit(tail, c)
    ensures ItemsFit(SetItems(r, trailing, more) + tail, cols)
  {
    hide ItemFits, ItemsFit, AfterColumns, WireColumns, SetFits;
    var ctx := WireColumns(r.columns);
    var body := AfterColumns(r, trailing, more);
    BodyItem(r, trailing, more, 0);
    forall i | 0 <= i < |body| ensures !body[i].Columns? && ItemFits(body[i], ctx) {
      BodyItem(r, trailing, more, i);
    }
    PlainItemsFit(body, ctx);
    ItemsFitAppend(body, tail, ctx, ctx);
    assert SetItems(r, trailing, more) + tail == [Columns(r.columns)] + (body + tail);
    ColumnsThen(r, trailing, body + tail, cols);
  }

  lemma ColumnsThen(r: QueryResponse, trailing: seq<InfoMessage>, rest: seq<Item>, cols: seq<WireColumn>)
    requires SetFits(r, trailing) && ItemsFit(rest, WireColumns(r.columns))
    ensures ItemsFit([Columns(r.columns)] + rest, cols)
  {
    hide RowFits, NoticeFits, WireColumns, Types;
    var all := [Columns(r.columns)] + rest;
    assert all[1..] == rest;
  }

  lemma BodyItem(r: QueryResponse, trailing: seq<InfoMessage>, more: bool, i: nat)
    requires SetFits(r, trailing)
    requires i < |r.infoTokens| + |r.rows| + |trailing| + 1
    ensures var body := AfterColumns(r, trailing, more);
            && |body| == |r.infoTokens| + |r.rows| + |trailing| + 1
            && !body[i].Columns? && ItemFits(body[i], WireColumns(r.columns))
            && (Final(TokenOf(body[i])) <==> i == |body| - 1 && !more)
  {
    hide RowFits, NoticeFits, WireColumns, WireRow, InfoNotice, Types;
    var a, b, c := |r.infoTokens|, |r.rows|, |trailing|;
    var last := DoneItem(if more then DONE_MORE else 0, |r.rows|);
    var body := AfterColumns(r, trailing, more);
    if i < a {
      assert body[i] == InfoItem(r.infoTokens[i]);
    } else if i < a + b {
      assert body[i] == RowItem(r.rows[i - a]);
    } else if i < a + b + c {
      assert body[i] == InfoItem(trailing[i - a - b]);
    } else {
      assert body[i] == last;
    }
  }

  lemma SetEnds(r: QueryResponse, trailing: seq<InfoMessage>, more: bool, k: nat)
    requires SetFits(r, trailing) && k < |SetItems(r, trailing, more)|
    ensures Final(TokenOf(SetItems(r, trailing, more)[k])) <==> k == |SetItems(r, trailing, more)| - 1 && !more
  {
    hide TokenOf;
    var items := SetItems(r, trailing, more);
    var body := AfterColumns(r, trailing, more);
    assert items == [Columns(r.columns)] + body;
    if k == 0 {
      ColumnsNotFinal(r.columns);
    } else {
      assert items[k] == body[k - 1];
      BodyItem(r, trailing, more, k - 1);
    }
  }

  lemma ColumnsNotFinal(cs: seq<ColumnDefinition>)
    ensures !Final(TokenOf(Columns(cs)))
  {
  }

  ghost predicate SetsFit(sets: seq<QueryResponse>, trailing: seq<InfoMessage>) {
    && sets != [] && SetFits(sets[|sets| - 1], trailing)
    && forall i :: 0 <= i < |sets| ==> SetFits(sets[i], [])
  }

  lemma {:induction false} SetsReadable(sets: seq<QueryResponse>, trailing: seq<InfoMessage>)
    requires SetsFit(sets, trailing)
    ensures EndsOnce(SetsItems(sets, trailing))
    ensures forall c: seq<WireColumn> :: ItemsFit(SetsItems(sets, trailing), c)
    decreases |sets|
  {
    hide SetFits, SetItems, ItemsFit, TokenOf, Final;
    if |sets| == 1 {
      var items := SetItems(sets[0], trailing, false);
      forall k | 0 <= k < |items| ensures Final(TokenOf(items[k])) <==> k == |items| - 1 {
        SetEnds(sets[0], trailing, false, k);
      }
      SetItemsNonEmpty(sets[0], trailing, false);
      forall c: seq<WireColumn> ensures ItemsFit(items, c) {
        EmptyFits();
        SetItemsFit(sets[0], trailing, false, [], c);
        assert items + [] == items;
      }
    } else {
      var head, tail := SetItems(sets[0], [], true), SetsItems(sets[1..], trailing);
      forall i | 0 <= i < |sets[1..]| ensures SetFits(sets[1..][i], []) {
        assert sets[1..][i] == sets[i + 1];
      }
      SetsReadable(sets[1..], trailing);
      var items := head + tail;
      forall k | 0 <= k < |items| ensures Final(TokenOf(items[k])) <==> k == |items| - 1 {
        if k < |head| {
          SetEnds(sets[0], [], true, k);
        } else {
          assert items[k] == tail[k - |head|];
        }
      }
      forall c: seq<WireColumn> ensures ItemsFit(items, c) {
        SetItemsFit(sets[0], [], true, tail, c);
      }
    }
  }

  lemma EmptyFits()
    ensures forall c: seq<WireColumn> :: ItemsFit([], c)
  {
  }

  lemma SetItemsNonEmpty(r: QueryResponse, trailing: seq<InfoMessage>, more: bool)
    ensures SetItems(r, trailing, more) != []
  {
  }

  /** Everything the response holds has room in the format; a terminal error replaces all of it. */
  ghost predicate ResponseFits(first: QueryResponse, following: seq<QueryResponse>, trailing: seq<InfoMessage>) {
    match first.terminalError
    case Some(e) => NoticeFits(ErrorNotice(e))
    case None =>
      && SetsFit([first] + following, trailing)
      && (first.leadingError.Some? ==> NoticeFits(ErrorNotice(first.leadingError.value)))
  }

  lemma ResponseReadable(first: QueryResponse, following: seq<QueryResponse>, trailing: seq<InfoMessage>)
    requires ResponseFits(first, following, trailing)
    ensures EndsOnce(ResponseItems(first, following, trailing))
    ensures ItemsFit(ResponseItems(first, following, trailing), [])
  {
    hide SetsFit, SetsItems, NoticeFits, ErrorNotice;
    var items := ResponseItems(first, following, trailing);
    match first.terminalError
    case Some(e) =>
      var done := DoneItem(DONE_ERROR, 0);
      assert items[1..] == [done] && [done][1..] == [];
      assert ItemsFit([done], []);
    case None =>
      var tail := SetsItems([first] + following, trailing);
      SetsReadable([first] + following, trailing);
      match first.leadingError {
        case None => assert items == tail;
        case Some(e) =>
          var done := DoneItem(DONE_MORE + DONE_ERROR, 0);
          assert items == [ErrorItem(e)] + ([done] + tail);
          assert items[1..] == [done] + tail && ([done] + tail)[1..] == tail;
          assert ItemsFit([done] + tail, []);
          forall k | 0 <= k < |items| ensures Final(TokenOf(items[k])) <==> k == |items| - 1 {
            if k >= 2 {
              assert items[k] == tail[k - 2];
            }
          }
      }
  }

  /** Reading a built response gives every token in order, and the reader stops exactly at its end. */
  lemma ResponseRoundTrip(first: QueryResponse, following: seq<QueryResponse>, trailing: seq<InfoMessage>)
    requires ResponseFits(first, following, trailing)
    ensures var items := ResponseItems(first, following, trailing);
            ReadTokens(ItemsBytes(items), 0, []) == Some(Parsed(TokensOf(items), |ItemsBytes(items)|))
  {
    hide ItemsFit, EndsOnce, ReadTokens, TokensOf, ItemsBytes, ResponseItems, ResponseFits;
    var items := ResponseItems(first, following, trailing);
    ResponseReadable(first, following, trailing);
    AtSelf(ItemsBytes(items));
    ReadTokensAt(ItemsBytes(items), 0, items, []);
  }

  /** On the wire: reading a cell gives NULL exactly where a null was written, whatever its type, and the
      empty value of every type that has one is read as a value. */
  lemma NullIff(buf: seq<byte>, pos: nat, v: ColumnValue, t: SqlDataType)
    requires Matches(v, t) && ValueFits(v) && At(buf, pos, ValueBytes(v))
    ensures ReadValue(buf, pos, t).Some?
    ensures ReadValue(buf, pos, t).value.item == WireNull <==> v.NullValue? || v.NVarCharMaxNull?
  {
    hide ReadValue, ValueBytes, At, ValueFits;
    ReadValueAt(buf, pos, v, t);
  }
}
