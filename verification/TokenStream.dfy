/** Token streams of query responses: how the mock server writes them, and a token reader. */
module TokenStream {
  import opened ByteCodec
  import opened UnicodeText
  import opened SqlText

  const TOKEN_COLMETADATA: byte := 0x81
  const TOKEN_ROW: byte := 0xD1
  const TOKEN_DONE: byte := 0xFD
  const TOKEN_ERROR: byte := 0xAA
  const TOKEN_INFO: byte := 0xAB
  const DONE_MORE: u16 := 0x0001
  const DONE_ERROR: u16 := 0x0002
  const CUR_CMD_SELECT: u16 := 0x00C1
  const PLP_TYPE_LENGTH_MARKER: u16 := 0xFFFF
  const MAX_BOUNDED_STRING_BYTES: u16 := 8000
  const PLP_NULL: u64 := 0xFFFF_FFFF_FFFF_FFFF
  const NO_METADATA: u16 := 0xFFFF

  datatype SqlDataType = TinyInt | SmallInt | Int | BigInt | NVarChar | NVarCharMax | VarCharMax | VarBinaryMax

  predicate IsIntN(t: SqlDataType) { t.TinyInt? || t.SmallInt? || t.Int? || t.BigInt? }

  function TypeCodeOf(t: SqlDataType): byte {
    match t
    case NVarChar => 0xE7
    case NVarCharMax => 0xE7
    case VarCharMax => 0xA7
    case VarBinaryMax => 0xA5
    case _ => 0x26
  }

  function MaxLength(t: SqlDataType): byte {
    match t
    case TinyInt => 1
    case SmallInt => 2
    case Int => 4
    case BigInt => 8
    case _ => 255
  }

  datatype ColumnValue =
    | TinyIntValue(tiny: byte) | SmallIntValue(small: i16) | IntValue(int32: i32) | BigIntValue(int64: i64)
    | NVarCharValue(text: seq<scalar>)
    | NVarCharMaxValue(unitChunks: seq<seq<u16>>) | NVarCharMaxNull
    | VarCharMaxValue(chunks: seq<seq<byte>>) | VarBinaryMaxValue(blobs: seq<seq<byte>>)
    | NullValue

  type collation = s: seq<byte> | |s| == 5 witness [0x09, 0x04, 0xD0, 0x00, 0x34]

  datatype ColumnDefinition = ColumnDefinition(name: seq<scalar>, dataType: SqlDataType, collation: collation)

  datatype InfoMessage = InfoMessage(number: u32, state: byte, severity: byte, message: seq<scalar>,
                                     serverName: seq<scalar>, procName: seq<scalar>, lineNumber: u32)

  datatype ServerError = ServerError(number: u32, severity: byte, message: seq<scalar>)

  datatype QueryResponse =
    QueryResponse(columns: seq<ColumnDefinition>, rows: seq<seq<ColumnValue>>, infoTokens: seq<InfoMessage>,
                  leadingError: Option<ServerError>, terminalError: Option<ServerError>)

  datatype ResultSetResponse = ResultSetResponse(response: QueryResponse, dataClassification: seq<byte>)

  // Layout

  function Chars(text: seq<scalar>): seq<byte> { UnitsLe(Encode16All(text)) }

  function PlpChunks(chunks: seq<seq<byte>>): seq<byte> {
    if chunks == [] then Le32(0) else Le32(|chunks[0]|) + (chunks[0] + PlpChunks(chunks[1..]))
  }

  function PlpBytes(chunks: seq<seq<byte>>): seq<byte> { Le64(|Flatten(chunks)|) + PlpChunks(chunks) }

  function UnitChunks(chunks: seq<seq<u16>>): (bs: seq<seq<byte>>)
    ensures |bs| == |chunks|
  {
    seq(|chunks|, i requires 0 <= i < |chunks| => UnitsLe(chunks[i]))
  }

  function ValueBytes(v: ColumnValue): seq<byte> {
    match v
    case TinyIntValue(x) => [1] + [x]
    case SmallIntValue(x) => [2] + Le16(x)
    case IntValue(x) => [4] + Le32(x)
    case BigIntValue(x) => [8] + Le64(x)
    case NVarCharValue(t) => Le16(|Chars(t)|) + Chars(t)
    case NVarCharMaxValue(chunks) => PlpBytes(UnitChunks(chunks))
    case NVarCharMaxNull => Le64(PLP_NULL)
    case VarCharMaxValue(chunks) => PlpBytes(chunks)
    case VarBinaryMaxValue(chunks) => PlpBytes(chunks)
    case NullValue => [0]
  }

  function TypeInfo(t: SqlDataType, collation: seq<byte>): seq<byte> {
    match t
    case NVarChar => Le16(MAX_BOUNDED_STRING_BYTES) + collation
    case NVarCharMax => Le16(PLP_TYPE_LENGTH_MARKER) + collation
    case VarCharMax => Le16(PLP_TYPE_LENGTH_MARKER) + collation
    case VarBinaryMax => Le16(PLP_TYPE_LENGTH_MARKER)
    case _ => [MaxLength(t)]
  }

  /** The name length byte counts characters; the name itself is written in UTF-16 units. */
  function ColumnBytes(c: ColumnDefinition): seq<byte> {
    var name := [|c.name| % 256] + Chars(c.name);
    Le32(0) + (Le16(0) + ([TypeCodeOf(c.dataType)] + (TypeInfo(c.dataType, c.collation) + name)))
  }

  function ColumnsBytes(cs: seq<ColumnDefinition>): seq<byte> {
    if cs == [] then [] else ColumnBytes(cs[0]) + ColumnsBytes(cs[1..])
  }

  function ValuesBytes(vs: seq<ColumnValue>): seq<byte> {
    if vs == [] then [] else ValueBytes(vs[0]) + ValuesBytes(vs[1..])
  }

  function UsVarChar(us: seq<u16>): seq<byte> { Le16(|us|) + UnitsLe(us) }

  function BVarChar(us: seq<u16>): seq<byte> { [|us| % 256] + UnitsLe(us) }

  /** Fields of an INFO or ERROR token behind its length. */
  datatype Notice =
    Notice(number: u32, state: byte, severity: byte, message: seq<u16>, server: seq<u16>, proc: seq<u16>, line: u32)

  function NoticeBody(n: Notice): seq<byte> {
    var texts := UsVarChar(n.message) + (BVarChar(n.server) + (BVarChar(n.proc) + Le32(n.line)));
    Le32(n.number) + ([n.state] + ([n.severity] + texts))
  }

  function NoticeBytes(token: byte, n: Notice): seq<byte> { [token] + (Le16(|NoticeBody(n)|) + NoticeBody(n)) }

  function InfoNotice(i: InfoMessage): Notice {
    var message, server, proc := Encode16All(i.message), Encode16All(i.serverName), Encode16All(i.procName);
    Notice(i.number, i.state, i.severity, message, server, proc, i.lineNumber)
  }

  function ErrorNotice(e: ServerError): Notice { Notice(e.number, 1, e.severity, Encode16All(e.message), [], [], 1) }

  function DoneBytes(status: u16, rowCount: int): seq<byte> {
    [TOKEN_DONE] + (Le16(status) + (Le16(CUR_CMD_SELECT) + Le64(rowCount)))
  }

  /** What the server emits, token by token. */
  datatype Item =
    | Columns(columns: seq<ColumnDefinition>)
    | RowItem(values: seq<ColumnValue>)
    | InfoItem(info: InfoMessage)
    | ErrorItem(error: ServerError)
    | DoneItem(status: u16, rowCount: nat)

  function ItemBytes(i: Item): seq<byte> {
    match i
    case Columns(cs) => [TOKEN_COLMETADATA] + (Le16(|cs|) + ColumnsBytes(cs))
    case RowItem(vs) => [TOKEN_ROW] + ValuesBytes(vs)
    case InfoItem(info) => NoticeBytes(TOKEN_INFO, InfoNotice(info))
    case ErrorItem(e) => NoticeBytes(TOKEN_ERROR, ErrorNotice(e))
    case DoneItem(status, n) => DoneBytes(status, n)
  }

  function ItemsBytes(items: seq<Item>): seq<byte> {
    if items == [] then [] else ItemBytes(items[0]) + ItemsBytes(items[1..])
  }

  function InfoItems(infos: seq<InfoMessage>): (r: seq<Item>)
    ensures |r| == |infos|
    ensures forall i :: 0 <= i < |r| ==> r[i] == InfoItem(infos[i])
  {
    seq(|infos|, i requires 0 <= i < |infos| => InfoItem(infos[i]))
  }

  function RowItems(rows: seq<seq<ColumnValue>>): (r: seq<Item>)
    ensures |r| == |rows|
    ensures forall i :: 0 <= i < |r| ==> r[i] == RowItem(rows[i])
  {
    seq(|rows|, i requires 0 <= i < |rows| => RowItem(rows[i]))
  }

  function AfterColumns(r: QueryResponse, trailing: seq<InfoMessage>, more: bool): seq<Item> {
    var done := DoneItem(if more then DONE_MORE else 0, |r.rows|);
    InfoItems(r.infoTokens) + (RowItems(r.rows) + (InfoItems(trailing) + [done]))
  }

  /** One result set: metadata, its info tokens, rows, trailing info tokens, DONE. */
  function SetItems(r: QueryResponse, trailing: seq<InfoMessage>, more: bool): seq<Item> {
    [Columns(r.columns)] + AfterColumns(r, trailing, more)
  }

  /** The sets from the first of `sets` on; only the last gets the trailing info and ends the response. */
  function SetsItems(sets: seq<QueryResponse>, trailing: seq<InfoMessage>): seq<Item>
    requires sets != []
  {
    if |sets| == 1 then SetItems(sets[0], trailing, false)
    else SetItems(sets[0], [], true) + SetsItems(sets[1..], trailing)
  }

  function ResponseItems(first: QueryResponse, following: seq<QueryResponse>, trailing: seq<InfoMessage>): seq<Item> {
    match first.terminalError
    case Some(e) => [ErrorItem(e), DoneItem(DONE_ERROR, 0)]
    case None =>
      (match first.leadingError
       case Some(e) => [ErrorItem(e), DoneItem(DONE_MORE + DONE_ERROR, 0)]
       case None => [])
      + SetsItems([first] + following, trailing)
  }

  // The reader

  datatype WireValue =
    | WireNull
    | WireInt(width: nat, value: int)
    | WireChars(units: seq<u16>)
    | WireBytes(data: seq<byte>)

  datatype WireColumn = WireColumn(dataType: SqlDataType, collation: seq<byte>, name: seq<u16>)

  datatype Token =
    | ColMetadata(columns: seq<WireColumn>)
    | Row(values: seq<WireValue>)
    | Info(info: Notice)
    | ErrorToken(error: Notice)
    | Done(status: u16, rowCount: u64)

  function ReadBytes(buf: seq<byte>, pos: nat, n: nat): Option<seq<byte>> {
    if pos + n <= |buf| then Some(buf[pos..pos + n]) else None
  }

  /** The data of a partially length-prefixed value: chunks up to an empty one. */
  function ReadChunks(buf: seq<byte>, pos: nat): Option<Parsed<seq<byte>>>
    decreases |buf| - pos
  {
    match ReadU32(buf, pos)
    case None => None
    case Some(len) =>
      if len == 0 then Some(Parsed([], pos + 4))
      else
        match ReadBytes(buf, pos + 4, len)
        case None => None
        case Some(chunk) =>
          match ReadChunks(buf, pos + 4 + len)
          case None => None
          case Some(rest) => Some(Parsed(chunk + rest.item, rest.next))
  }

  function ReadPlp(buf: seq<byte>, pos: nat): Option<Parsed<Option<seq<byte>>>> {
    match ReadU64(buf, pos)
    case None => None
    case Some(total) =>
      if total == PLP_NULL then Some(Parsed(None, pos + 8))
      else
        match ReadChunks(buf, pos + 8)
        case None => None
        case Some(p) => Some(Parsed(Some(p.item), p.next))
  }

  function ReadIntN(buf: seq<byte>, pos: nat): Option<Parsed<WireValue>> {
    match ReadU8(buf, pos)
    case None => None
    case Some(len) =>
      if len == 0 then Some(Parsed(WireNull, pos + 1))
      else if len == 1 then
        match ReadU8(buf, pos + 1) case None => None case Some(v) => Some(Parsed(WireInt(1, v), pos + 2))
      else if len == 2 then
        match ReadU16(buf, pos + 1) case None => None case Some(v) => Some(Parsed(WireInt(2, Signed16(v)), pos + 3))
      else if len == 4 then
        match ReadU32(buf, pos + 1) case None => None case Some(v) => Some(Parsed(WireInt(4, Signed32(v)), pos + 5))
      else if len == 8 then
        match ReadU64(buf, pos + 1) case None => None case Some(v) => Some(Parsed(WireInt(8, Signed64(v)), pos + 9))
      else None
  }

  function Signed64(v: u64): i64 { if v < 0x8000_0000_0000_0000 then v else v - 0x1_0000_0000_0000_0000 }

  function ReadValue(buf: seq<byte>, pos: nat, t: SqlDataType): Option<Parsed<WireValue>> {
    if IsIntN(t) then ReadIntN(buf, pos)
    else if t.NVarChar? then
      match ReadU16(buf, pos)
      case None => None
      case Some(len) =>
        if len == PLP_TYPE_LENGTH_MARKER then Some(Parsed(WireNull, pos + 2))
        else
          match ReadBytes(buf, pos + 2, len)
          case None => None
          case Some(s) => Some(Parsed(WireChars(Units(s)), pos + 2 + len))
    else
      match ReadPlp(buf, pos)
      case None => None
      case Some(p) =>
        Some(Parsed(match p.item
                    case None => WireNull
                    case Some(s) => if t.NVarCharMax? then WireChars(Units(s)) else WireBytes(s), p.next))
  }

  function ReadValues(buf: seq<byte>, pos: nat, types: seq<SqlDataType>): Option<Parsed<seq<WireValue>>>
    decreases |types|
  {
    if types == [] then Some(Parsed([], pos))
    else
      match ReadValue(buf, pos, types[0])
      case None => None
      case Some(v) =>
        match ReadValues(buf, v.next, types[1..])
        case None => None
        case Some(rest) => Some(Parsed([v.item] + rest.item, rest.next))
  }

  /** Type code, length and collation. */
  function ReadTypeInfo(buf: seq<byte>, pos: nat): Option<Parsed<(SqlDataType, seq<byte>)>> {
    match ReadU8(buf, pos)
    case None => None
    case Some(code) =>
      if code == 0x26 then
        match ReadU8(buf, pos + 1)
        case None => None
        case Some(len) =>
          if len == 1 then Some(Parsed((TinyInt, []), pos + 2))
          else if len == 2 then Some(Parsed((SmallInt, []), pos + 2))
          else if len == 4 then Some(Parsed((Int, []), pos + 2))
          else if len == 8 then Some(Parsed((BigInt, []), pos + 2))
          else None
      else if code == 0xA5 then
        match ReadU16(buf, pos + 1)
        case None => None
        case Some(len) => if len == PLP_TYPE_LENGTH_MARKER then Some(Parsed((VarBinaryMax, []), pos + 3)) else None
      else if code == 0xE7 || code == 0xA7 then
        match ReadU16(buf, pos + 1)
        case None => None
        case Some(len) =>
          match ReadBytes(buf, pos + 3, 5)
          case None => None
          case Some(c) =>
            if len == PLP_TYPE_LENGTH_MARKER then
              Some(Parsed((if code == 0xE7 then NVarCharMax else VarCharMax, c), pos + 8))
            else if code == 0xE7 then Some(Parsed((NVarChar, c), pos + 8))
            else None
      else None
  }

  /** A name with a one-byte unit count. */
  function ReadBVarChar(buf: seq<byte>, pos: nat): Option<Parsed<seq<u16>>> {
    match ReadU8(buf, pos)
    case None => None
    case Some(len) =>
      match ReadBytes(buf, pos + 1, 2 * len)
      case None => None
      case Some(s) => Some(Parsed(Units(s), pos + 1 + 2 * len))
  }

  function ReadUsVarChar(buf: seq<byte>, pos: nat): Option<Parsed<seq<u16>>> {
    match ReadU16(buf, pos)
    case None => None
    case Some(len) =>
      match ReadBytes(buf, pos + 2, 2 * len)
      case None => None
      case Some(s) => Some(Parsed(Units(s), pos + 2 + 2 * len))
  }

  function ReadColumn(buf: seq<byte>, pos: nat): Option<Parsed<WireColumn>> {
    match ReadTypeInfo(buf, pos + 6)
    case None => None
    case Some(t) =>
      match ReadBVarChar(buf, t.next)
      case None => None
      case Some(name) => Some(Parsed(WireColumn(t.item.0, t.item.1, name.item), name.next))
  }

  function ReadColumns(buf: seq<byte>, pos: nat, n: nat): Option<Parsed<seq<WireColumn>>>
    decreases n
  {
    if n == 0 then Some(Parsed([], pos))
    else
      match ReadColumn(buf, pos)
      case None => None
      case Some(c) =>
        match ReadColumns(buf, c.next, n - 1)
        case None => None
        case Some(rest) => Some(Parsed([c.item] + rest.item, rest.next))
  }

  function ReadNotice(buf: seq<byte>, pos: nat): Option<Parsed<Notice>> {
    var state, severity := ReadU8(buf, pos + 6), ReadU8(buf, pos + 7);
    match (ReadU16(buf, pos), ReadU32(buf, pos + 2), state, severity, ReadUsVarChar(buf, pos + 8))
    case (Some(len), Some(number), Some(state), Some(severity), Some(message)) =>
      (match ReadBVarChar(buf, message.next)
       case None => None
       case Some(server) =>
         match ReadBVarChar(buf, server.next)
         case None => None
         case Some(proc) =>
           match ReadU32(buf, proc.next)
           case None => None
           case Some(line) =>
             if proc.next + 4 != pos + 2 + len then None
             else
               var n := Notice(number, state, severity, message.item, server.item, proc.item, line);
               Some(Parsed(n, proc.next + 4)))
    case _ => None
  }

  function ReadDone(buf: seq<byte>, pos: nat): Option<Parsed<Token>> {
    match (ReadU16(buf, pos), ReadU64(buf, pos + 4))
    case (Some(status), Some(rows)) => Some(Parsed(Done(status, rows), pos + 12))
    case _ => None
  }

  function Types(cols: seq<WireColumn>): (ts: seq<SqlDataType>)
    ensures |ts| == |cols|
  {
    seq(|cols|, i requires 0 <= i < |cols| => cols[i].dataType)
  }

  /** One token, read in the context of the latest column metadata. */
  function ReadToken(buf: seq<byte>, pos: nat, cols: seq<WireColumn>): Option<Parsed<Token>> {
    match ReadU8(buf, pos)
    case None => None
    case Some(kind) =>
      if kind == TOKEN_COLMETADATA then
        match ReadU16(buf, pos + 1)
        case None => None
        case Some(n) =>
          match ReadColumns(buf, pos + 3, if n == NO_METADATA then 0 else n)
          case None => None
          case Some(cs) => Some(Parsed(ColMetadata(cs.item), cs.next))
      else if kind == TOKEN_ROW then
        match ReadValues(buf, pos + 1, Types(cols))
        case None => None
        case Some(vs) => Some(Parsed(Row(vs.item), vs.next))
      else if kind == TOKEN_INFO then
        match ReadNotice(buf, pos + 1) case None => None case Some(n) => Some(Parsed(Info(n.item), n.next))
      else if kind == TOKEN_ERROR then
        match ReadNotice(buf, pos + 1) case None => None case Some(n) => Some(Parsed(ErrorToken(n.item), n.next))
      else if kind == TOKEN_DONE then ReadDone(buf, pos + 1)
      else None
  }

  predicate Final(t: Token) { t.Done? && t.status % 2 == 0 }

  function ContextAfter(cols: seq<WireColumn>, t: Token): seq<WireColumn> { if t.ColMetadata? then t.columns else cols }

  /** Tokens up to and including the first DONE without the MORE flag. */
  function ReadTokens(buf: seq<byte>, pos: nat, cols: seq<WireColumn>): Option<Parsed<seq<Token>>>
    decreases |buf| - pos
  {
    match ReadToken(buf, pos, cols)
    case None => None
    case Some(t) =>
      if !(pos < t.next <= |buf|) then None
      else if Final(t.item) then Some(Parsed([t.item], t.next))
      else
        match ReadTokens(buf, t.next, ContextAfter(cols, t.item))
        case None => None
        case Some(rest) => Some(Parsed([t.item] + rest.item, rest.next))
  }
}
