/** The binary result format shared by the Rust row writer and the TypeScript decoder. */
module RowFormat {
  import opened ByteCodec

  /** UTF-8 bytes of an interned string. */
  type Text = seq<byte>
  type u128 = x: int | 0 <= x < 0x1_0000_0000_0000_0000_0000_0000_0000_0000
  type uuid = s: seq<byte> | |s| == 16 witness seq(16, _ => 0)

  const MAGIC: u32 := 0x4D53_5351
  const FORMAT_VERSION: byte := 1
  const HEADER_SIZE := 19
  const TWO32 := 0x1_0000_0000

  const TAG_NULL := 0
  const TAG_BOOL := 1
  const TAG_U8 := 2
  const TAG_I16 := 3
  const TAG_I32 := 4
  const TAG_I64 := 5
  const TAG_F32 := 6
  const TAG_F64 := 7
  const TAG_STRING_REF := 8
  const TAG_BYTES := 9
  const TAG_DECIMAL := 10
  const TAG_UUID := 11
  const TAG_DATE := 12
  const TAG_TIME := 13
  const TAG_DATETIME := 14
  const TAG_SMALLDATETIME := 15
  const TAG_DATETIME2 := 16
  const TAG_DATETIMEOFFSET := 17
  const TAG_MONEY := 18
  const TAG_SMALLMONEY := 19

  /** One call of the row-writer interface: the value the server column held. */
  datatype Cell =
    | Null
    | Bool(flag: bool)
    | U8(tiny: byte)
    | I16(small: i16)
    | I32(int32: i32)
    | I64(int64: i64)
    | F32(bits32: u32)
    | F64(bits64: u64)
    | Str(utf8: Text)
    | Blob(data: seq<byte>)
    | Decimal(isPositive: bool, scale: byte, precision: byte, magnitude: u128)
    | Uuid(id: uuid)
    | Date(days: u32)
    | Time(timeScale: byte, ticks: u64)
    | DateTime(days1900: i32, time300: u32)
    | SmallDateTime(days16: u16, minutes: u16)
    | DateTime2(scale2: byte, ticks2: u64, days2: u32)
    | DateTimeOffset(scale3: byte, ticks3: u64, days3: u32, offset: i16)
    | Money(lsb: i32, msb: i32)
    | SmallMoney(money: i32)
    | Vector(floats: Option<seq<u32>>)

  /** A decoded cell, up to the integer fields and bit patterns the decoder computes. */
  datatype RawCell =
    | RawNull
    | RawBool(flag: bool)
    | RawNumber(number: int)
    | RawBigInt(bigint: int)
    | RawFloat32(bits32: u32)
    | RawFloat64(bits64: u64)
    | RawString(utf8: Text)
    | RawBuffer(data: seq<byte>)
    | RawDecimal(isPositive: bool, magnitude: nat, scale: byte)
    | RawUuid(text: string)
    | RawDate(days: u32)
    | RawTime(ticks: u64)
    | RawDateTime(days1900: i32, time300: u32)
    | RawSmallDateTime(days16: u16, minutes: u16)
    | RawDateTime2(days2: u32, ticks2: u64)
    | RawMoney(tenThousandths: int)

  /** Little-endian 32-bit words of a decimal magnitude, at least one. */
  function Words(magnitude: nat): (ws: seq<u32>)
    ensures |ws| >= 1
  {
    if magnitude < TWO32 then [magnitude]
    else [magnitude % TWO32] + Words(magnitude / TWO32)
  }

  function WordsLe(ws: seq<u32>): (s: seq<byte>)
    ensures |s| == 4 * |ws|
  {
    if ws == [] then [] else Le32(ws[0]) + WordsLe(ws[1..])
  }

  function WordsValue(ws: seq<u32>): nat {
    if ws == [] then 0 else ws[0] as int + TWO32 * WordsValue(ws[1..])
  }

  function HexDigit(n: int): char
    requires 0 <= n < 16
  {
    "0123456789abcdef"[n]
  }

  function Hex(s: seq<byte>): (t: string)
    ensures |t| == 2 * |s|
  {
    if s == [] then "" else [HexDigit(s[0] / 16), HexDigit(s[0] % 16)] + Hex(s[1..])
  }

  function Clamped(hex: string, i: nat, j: nat): string
    requires i <= j
  {
    if |hex| <= i then "" else if |hex| <= j then hex[i..] else hex[i..j]
  }

  /** The dashed text form of a UUID. */
  function UuidText(s: seq<byte>): string {
    var hex := Hex(s);
    Clamped(hex, 0, 8) + "-" + Clamped(hex, 8, 12) + "-" + Clamped(hex, 12, 16) + "-"
    + Clamped(hex, 16, 20) + "-" + Clamped(hex, 20, 20 + |hex|)
  }

  function BoolByte(b: bool): byte { if b then 1 else 0 }

  /** The signed 64-bit integer whose 32-bit halves are `lo` and `hi`. */
  function Join64(lo: u32, hi: i32): int { lo as int + TWO32 * hi as int }

  /** What the decoder keeps of a cell: time scales, decimal precision and the UTC offset are dropped. */
  function Kept(c: Cell): RawCell {
    match c
    case Null => RawNull
    case Bool(b) => RawBool(b)
    case U8(v) => RawNumber(v)
    case I16(v) => RawNumber(v)
    case I32(v) => RawNumber(v)
    case I64(v) => RawBigInt(v)
    case F32(bits) => RawFloat32(bits)
    case F64(bits) => RawFloat64(bits)
    case Str(t) => RawString(t)
    case Blob(d) => RawBuffer(d)
    case Decimal(p, scale, _, m) => RawDecimal(p, m, scale)
    case Uuid(id) => RawUuid(UuidText(id))
    case Date(d) => RawDate(d)
    case Time(_, t) => RawTime(t)
    case DateTime(d, t) => RawDateTime(d, t)
    case SmallDateTime(d, t) => RawSmallDateTime(d, t)
    case DateTime2(_, t, d) => RawDateTime2(d, t)
    case DateTimeOffset(_, t, d, _) => RawDateTime2(d, t)
    case Money(lsb, msb) => RawMoney(Join64(lsb % TWO32, msb))
    case SmallMoney(v) => RawMoney(v)
    case Vector(None) => RawBuffer([])
    case Vector(Some(fs)) => RawBuffer(WordsLe(fs))
  }

  function KeptRow(cells: seq<Cell>): (r: seq<RawCell>)
    ensures |r| == |cells|
  {
    if cells == [] then [] else [Kept(cells[0])] + KeptRow(cells[1..])
  }

  function KeptRows(rows: seq<seq<Cell>>): (r: seq<seq<RawCell>>)
    ensures |r| == |rows|
  {
    if rows == [] then [] else [KeptRow(rows[0])] + KeptRows(rows[1..])
  }

  /** Lengths the format has room for. */
  predicate CellFits(c: Cell) {
    match c
    case Blob(d) => |d| < TWO32
    case Vector(Some(fs)) => 4 * |fs| < TWO32
    case _ => true
  }

  predicate RowsFit(rows: seq<seq<Cell>>) {
    |rows| < TWO32 && forall r, i :: 0 <= r < |rows| && 0 <= i < |rows[r]| ==> CellFits(rows[r][i])
  }

  /** Bytes of one cell, given the string table index of every interned string. */
  function EncodeCell(c: Cell, index: map<Text, nat>): seq<byte>
    requires c.Str? ==> c.utf8 in index
  {
    match c
    case Null => [TAG_NULL]
    case Bool(b) => [TAG_BOOL] + [BoolByte(b)]
    case U8(v) => [TAG_U8] + [v]
    case I16(v) => [TAG_I16] + Le16(v)
    case I32(v) => [TAG_I32] + Le32(v)
    case I64(v) => [TAG_I64] + Le64(v)
    case F32(bits) => [TAG_F32] + Le32(bits)
    case F64(bits) => [TAG_F64] + Le64(bits)
    case Str(t) => [TAG_STRING_REF] + Le32(index[t])
    case Blob(d) => [TAG_BYTES] + (Le32(|d|) + d)
    case Decimal(p, scale, precision, m) =>
      [TAG_DECIMAL] + ([BoolByte(p)] + ([scale] + ([precision] + ([|Words(m)| % 256] + WordsLe(Words(m))))))
    case Uuid(id) => [TAG_UUID] + id
    case Date(d) => [TAG_DATE] + Le32(d)
    case Time(scale, t) => [TAG_TIME] + ([scale] + Le64(t))
    case DateTime(d, t) => [TAG_DATETIME] + (Le32(d) + Le32(t))
    case SmallDateTime(d, t) => [TAG_SMALLDATETIME] + (Le16(d) + Le16(t))
    case DateTime2(scale, t, d) => [TAG_DATETIME2] + ([scale] + (Le64(t) + Le32(d)))
    case DateTimeOffset(scale, t, d, o) => [TAG_DATETIMEOFFSET] + ([scale] + (Le64(t) + (Le32(d) + Le16(o))))
    case Money(lsb, msb) => [TAG_MONEY] + (Le32(lsb) + Le32(msb))
    case SmallMoney(v) => [TAG_SMALLMONEY] + Le32(v)
    case Vector(None) => [TAG_BYTES] + Le32(0)
    case Vector(Some(fs)) => [TAG_BYTES] + (Le32(4 * |fs|) + WordsLe(fs))
  }

  ghost predicate Indexed(cells: seq<Cell>, index: map<Text, nat>) {
    forall i :: 0 <= i < |cells| && cells[i].Str? ==> cells[i].utf8 in index
  }

  ghost predicate RowsIndexed(rows: seq<seq<Cell>>, index: map<Text, nat>) {
    forall r :: 0 <= r < |rows| ==> Indexed(rows[r], index)
  }

  ghost function EncodeRow(cells: seq<Cell>, index: map<Text, nat>): seq<byte>
    requires Indexed(cells, index)
  {
    if cells == [] then [] else EncodeCell(cells[0], index) + EncodeRow(cells[1..], index)
  }

  ghost function EncodeRows(rows: seq<seq<Cell>>, index: map<Text, nat>): seq<byte>
    requires RowsIndexed(rows, index)
  {
    if rows == [] then [] else EncodeRow(rows[0], index) + EncodeRows(rows[1..], index)
  }

  /** The string table holds each string once, and `index` is its inverse. */
  ghost predicate Interned(table: seq<Text>, index: map<Text, nat>) {
    && (forall i :: 0 <= i < |table| ==> table[i] in index && index[table[i]] == i)
    && (forall t :: t in index ==> index[t] < |table| && table[index[t]] == t)
  }

  /** Length of the string data in front of entry `n`. */
  function DataLen(table: seq<Text>, n: nat): nat
    requires n <= |table|
  {
    if n == 0 then 0 else DataLen(table, n - 1) + |table[n - 1]|
  }

  ghost predicate TableFits(table: seq<Text>) {
    && |table| < TWO32
    && DataLen(table, |table|) < TWO32
  }

  function StringData(table: seq<Text>): seq<byte> { Flatten(table) }

  /** Offset/length pairs of entries `n` and later. */
  function EntryBytes(table: seq<Text>, n: nat): seq<byte>
    requires n <= |table|
    decreases |table| - n
  {
    if n == |table| then []
    else Le32(DataLen(table, n)) + (Le32(|table[n]|) + EntryBytes(table, n + 1))
  }

  function NameAt(names: seq<nat>, i: nat): nat { if i < |names| then names[i] else 0 }

  function TypeAt(types: seq<byte>, i: nat): byte { if i < |types| then types[i] else 0 }

  /** Column descriptors `n` and later. */
  function ColumnBytes(names: seq<nat>, types: seq<byte>, n: nat, colCount: nat): seq<byte>
    requires n <= colCount
    decreases colCount - n
  {
    if n == colCount then []
    else Le32(NameAt(names, n)) + ([TypeAt(types, n)] + ColumnBytes(names, types, n + 1, colCount))
  }

  function HeaderBytes(colCount: nat, rowCount: nat, rowsAffected: i32): (s: seq<byte>)
    ensures |s| == HEADER_SIZE
  {
    Le32(MAGIC) + ([FORMAT_VERSION] + (Le16(colCount)
    + (Le32(rowCount) + (Le32(HEADER_SIZE + 5 * colCount) + Le32(rowsAffected)))))
  }

  /** The finalized buffer: header, column descriptors, string table, row data. */
  function Layout(colCount: nat, rowCount: nat, rowsAffected: i32, names: seq<nat>, types: seq<byte>,
                  table: seq<Text>, rowData: seq<byte>): seq<byte>
  {
    HeaderBytes(colCount, rowCount, rowsAffected)
    + (ColumnBytes(names, types, 0, colCount)
       + (Le32(|table|) + (EntryBytes(table, 0) + (StringData(table) + rowData))))
  }
}
