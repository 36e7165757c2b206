/** `decodeRawResult`: the TypeScript parser of the binary result format. */
module RowDecoder {
  import opened ByteCodec
  import opened RowFormat

  datatype DecodeError =
    | OutOfBounds
    | BadMagic(magic: u32)
    | BadVersion(version: byte)
    | BadStringTableOffset(offset: nat)
    | BadStringEntry(offset: nat, len: nat)
    | BadStringIndex(index: nat)
    | UnknownTag(tag: byte, cellEnd: nat)

  datatype Result<+T> = Ok(value: T) | Err(error: DecodeError) {
    predicate IsFailure() { Err? }

    function PropagateFailure<U>(): Result<U>
      requires Err?
    {
      Err(error)
    }

    function Extract(): T
      requires Ok?
    {
      value
    }
  }

  datatype Column = Column(name: Text, typeId: byte)

  datatype RawResult = RawResult(columns: seq<Column>, rows: seq<seq<RawCell>>, rowCount: nat, rowsAffected: i32)

  /** The string table entries and where their data starts. */
  datatype StringTable = StringTable(entries: seq<(nat, nat)>, dataStart: nat)

  function Need<T>(o: Option<T>): Result<T> {
    match o
    case Some(v) => Ok(v)
    case None => Err(OutOfBounds)
  }

  function Min(a: nat, b: nat): nat { if a <= b then a else b }

  /** `Buffer.subarray`, which clamps its bounds instead of failing. */
  function Subarray(buf: seq<byte>, from: nat, to: nat): seq<byte>
    requires from <= to
  {
    buf[Min(from, |buf|)..Min(to, |buf|)]
  }

  function GetString(buf: seq<byte>, table: StringTable, idx: nat): Result<Text> {
    if idx >= |table.entries| then Err(BadStringIndex(idx))
    else
      var start := table.dataStart + table.entries[idx].0;
      Ok(Subarray(buf, start, start + table.entries[idx].1))
  }

  /** Folds `n` decimal words into the magnitude, `weight` being the weight of the next word. */
  function ReadWords(buf: seq<byte>, pos: nat, n: nat, sum: nat, weight: nat): Result<Parsed<nat>>
    decreases n
  {
    if n == 0 then Ok(Parsed(sum, pos))
    else
      var part :- Need(ReadU32(buf, pos));
      ReadWords(buf, pos + 4, n - 1, sum + part * weight, weight * TWO32)
  }

  /** One cell at `pos`: its tag byte, then the fields that tag calls for. */
  function DecodeCell(buf: seq<byte>, pos: nat, table: StringTable): Result<Parsed<RawCell>> {
    var tag :- Need(ReadU8(buf, pos));
    var p := pos + 1;
    if tag == TAG_NULL then Ok(Parsed(RawNull, p))
    else if tag == TAG_BOOL then
      var v :- Need(ReadU8(buf, p)); Ok(Parsed(RawBool(v != 0), p + 1))
    else if tag == TAG_U8 then
      var v :- Need(ReadU8(buf, p)); Ok(Parsed(RawNumber(v), p + 1))
    else if tag == TAG_I16 then
      var v :- Need(ReadU16(buf, p)); Ok(Parsed(RawNumber(Signed16(v)), p + 2))
    else if tag == TAG_I32 then
      var v :- Need(ReadU32(buf, p)); Ok(Parsed(RawNumber(Signed32(v)), p + 4))
    else if tag == TAG_I64 then
      var lo :- Need(ReadU32(buf, p));
      var hi :- Need(ReadU32(buf, p + 4));
      Ok(Parsed(RawBigInt(Join64(lo, Signed32(hi))), p + 8))
    else if tag == TAG_F32 then
      var v :- Need(ReadU32(buf, p)); Ok(Parsed(RawFloat32(v), p + 4))
    else if tag == TAG_F64 then
      var v :- Need(ReadU64(buf, p)); Ok(Parsed(RawFloat64(v), p + 8))
    else if tag == TAG_STRING_REF then
      var idx :- Need(ReadU32(buf, p));
      var s :- GetString(buf, table, idx);
      Ok(Parsed(RawString(s), p + 4))
    else if tag == TAG_BYTES then
      var len :- Need(ReadU32(buf, p));
      Ok(Parsed(RawBuffer(Subarray(buf, p + 4, p + 4 + len)), p + 4 + len))
    else DecodeWideCell(buf, p, tag, table)
  }

  /** The tags from decimal on, with the cursor behind the tag byte. */
  function DecodeWideCell(buf: seq<byte>, p: nat, tag: byte, table: StringTable): Result<Parsed<RawCell>> {
    if tag == TAG_DECIMAL then
      var positive :- Need(ReadU8(buf, p));
      var scale :- Need(ReadU8(buf, p + 1));
      var count :- Need(ReadU8(buf, p + 3));
      var words :- ReadWords(buf, p + 4, count, 0, 1);
      Ok(Parsed(RawDecimal(positive != 0, words.item, scale), words.next))
    else if tag == TAG_UUID then
      Ok(Parsed(RawUuid(UuidText(Subarray(buf, p, p + 16))), p + 16))
    else if tag == TAG_DATE then
      var d :- Need(ReadU32(buf, p)); Ok(Parsed(RawDate(d), p + 4))
    else if tag == TAG_TIME then
      var t :- Need(ReadU64(buf, p + 1)); Ok(Parsed(RawTime(t), p + 9))
    else if tag == TAG_DATETIME then
      var d :- Need(ReadU32(buf, p));
      var t :- Need(ReadU32(buf, p + 4));
      Ok(Parsed(RawDateTime(Signed32(d), t), p + 8))
    else if tag == TAG_SMALLDATETIME then
      var d :- Need(ReadU16(buf, p));
      var t :- Need(ReadU16(buf, p + 2));
      Ok(Parsed(RawSmallDateTime(d, t), p + 4))
    else if tag == TAG_DATETIME2 then
      var t :- Need(ReadU64(buf, p + 1));
      var d :- Need(ReadU32(buf, p + 9));
      Ok(Parsed(RawDateTime2(d, t), p + 13))
    else if tag == TAG_DATETIMEOFFSET then
      var t :- Need(ReadU64(buf, p + 1));
      var d :- Need(ReadU32(buf, p + 9));
      Ok(Parsed(RawDateTime2(d, t), p + 15))
    else if tag == TAG_MONEY then
      var lsb :- Need(ReadU32(buf, p));
      var msb :- Need(ReadU32(buf, p + 4));
      Ok(Parsed(RawMoney(Join64(lsb, Signed32(msb))), p + 8))
    else if tag == TAG_SMALLMONEY then
      var v :- Need(ReadU32(buf, p)); Ok(Parsed(RawMoney(Signed32(v)), p + 4))
    else Err(UnknownTag(tag, p))
  }

  /** Puts already parsed items in front of those still to come. */
  function Prepend<T>(done: seq<T>, rest: Result<Parsed<seq<T>>>): Result<Parsed<seq<T>>> {
    match rest
    case Ok(p) => Ok(Parsed(done + p.item, p.next))
    case Err(e) => Err(e)
  }

  lemma PrependStep<T>(done: seq<T>, x: T, rest: Result<Parsed<seq<T>>>)
    ensures Prepend(done, Prepend([x], rest)) == Prepend(done + [x], rest)
  {
    if rest.Ok? {
      assert done + ([x] + rest.value.item) == done + [x] + rest.value.item;
    }
  }

  lemma PrependNil<T>(done: seq<T>, pos: nat, rest: Result<Parsed<seq<T>>>)
    ensures Prepend(done, Ok(Parsed([], pos))) == Ok(Parsed(done, pos))
    ensures Prepend([], rest) == rest
  {
    assert done + [] == done;
    if rest.Ok? {
      assert [] + rest.value.item == rest.value.item;
    }
  }

  function DecodeCells(buf: seq<byte>, pos: nat, n: nat, table: StringTable): Result<Parsed<seq<RawCell>>>
    decreases n
  {
    if n == 0 then Ok(Parsed([], pos))
    else
      var c :- DecodeCell(buf, pos, table);
      Prepend([c.item], DecodeCells(buf, c.next, n - 1, table))
  }

  function DecodeRows(buf: seq<byte>, pos: nat, n: nat, cols: nat,
                      table: StringTable): Result<Parsed<seq<seq<RawCell>>>>
    decreases n
  {
    if n == 0 then Ok(Parsed([], pos))
    else
      var row :- DecodeCells(buf, pos, cols, table);
      Prepend([row.item], DecodeRows(buf, row.next, n - 1, cols, table))
  }

  function DecodeDescriptors(buf: seq<byte>, pos: nat, n: nat): Result<Parsed<seq<(nat, byte)>>>
    decreases n
  {
    if n == 0 then Ok(Parsed([], pos))
    else
      var name :- Need(ReadU32(buf, pos));
      var typeId :- Need(ReadU8(buf, pos + 4));
      Prepend([(name, typeId)], DecodeDescriptors(buf, pos + 5, n - 1))
  }

  function DecodeEntries(buf: seq<byte>, pos: nat, n: nat): Result<Parsed<seq<(nat, nat)>>>
    decreases n
  {
    if n == 0 then Ok(Parsed([], pos))
    else
      var offset :- Need(ReadU32(buf, pos));
      var len :- Need(ReadU32(buf, pos + 4));
      if offset + len > |buf| then Err(BadStringEntry(offset, len))
      else Prepend([(offset, len)], DecodeEntries(buf, pos + 8, n - 1))
  }

  /** The furthest end of any of the first `n` string entries. */
  function MaxEnd(entries: seq<(nat, nat)>, n: nat): nat
    requires n <= |entries|
  {
    if n == 0 then 0
    else
      var end := entries[n - 1].0 + entries[n - 1].1;
      var before := MaxEnd(entries, n - 1);
      if end > before then end else before
  }

  /** Resolves the names of descriptors `n` and later; the cursor `pos` does not move. */
  function DecodeColumns(buf: seq<byte>, descriptors: seq<(nat, byte)>, n: nat, table: StringTable, pos: nat)
    : Result<Parsed<seq<Column>>>
    requires n <= |descriptors|
    decreases |descriptors| - n
  {
    if n == |descriptors| then Ok(Parsed([], pos))
    else
      var name :- GetString(buf, table, descriptors[n].0);
      Prepend([Column(name, descriptors[n].1)], DecodeColumns(buf, descriptors, n + 1, table, pos))
  }

  datatype Header = Header(colCount: u16, rowCount: u32, tableOffset: u32, rowsAffected: i32)

  function DecodeHeader(buf: seq<byte>): Result<Header> {
    var magic :- Need(ReadU32(buf, 0));
    if magic != MAGIC then Err(BadMagic(magic))
    else
      var version :- Need(ReadU8(buf, 4));
      if version != 1 then Err(BadVersion(version))
      else
        var colCount :- Need(ReadU16(buf, 5));
        var rowCount :- Need(ReadU32(buf, 7));
        var tableOffset :- Need(ReadU32(buf, 11));
        var affected :- Need(ReadU32(buf, 15));
        Ok(Header(colCount, rowCount, tableOffset, Signed32(affected)))
  }

  function DecodeTable(buf: seq<byte>, offset: nat): Result<Parsed<StringTable>> {
    if offset >= |buf| then Err(BadStringTableOffset(offset))
    else
      var count :- Need(ReadU32(buf, offset));
      var entries :- DecodeEntries(buf, offset + 4, count);
      Ok(Parsed(StringTable(entries.item, entries.next), entries.next + MaxEnd(entries.item, |entries.item|)))
  }

  /** The whole result and the position of the first byte not read. */
  function Decode(buf: seq<byte>): Result<Parsed<RawResult>> {
    var h :- DecodeHeader(buf);
    var descriptors :- DecodeDescriptors(buf, HEADER_SIZE, h.colCount);
    var table :- DecodeTable(buf, h.tableOffset);
    var columns :- DecodeColumns(buf, descriptors.item, 0, table.item, table.next);
    var rows :- DecodeRows(buf, columns.next, h.rowCount, h.colCount, table.item);
    Ok(Parsed(RawResult(columns.item, rows.item, h.rowCount, h.rowsAffected), rows.next))
  }

  // The loops of the decoder, each against its recursive description.

  method ReadDescriptors(buf: seq<byte>, start: nat, n: nat) returns (r: Result<Parsed<seq<(nat, byte)>>>)
    ensures r == DecodeDescriptors(buf, start, n)
  {
    var descriptors: seq<(nat, byte)> := [];
    var pos := start;
    PrependNil(descriptors, pos, DecodeDescriptors(buf, start, n));
    for i := 0 to n
      invariant pos == start + 5 * i
      invariant DecodeDescriptors(buf, start, n) == Prepend(descriptors, DecodeDescriptors(buf, pos, n - i))
    {
      var name :- Need(ReadU32(buf, pos));
      var typeId :- Need(ReadU8(buf, pos + 4));
      PrependStep(descriptors, (name, typeId), DecodeDescriptors(buf, pos + 5, n - i - 1));
      descriptors := descriptors + [(name, typeId)];
      pos := pos + 5;
    }
    PrependNil(descriptors, pos, Ok(Parsed([], pos)));
    return Ok(Parsed(descriptors, pos));
  }

  method ReadEntries(buf: seq<byte>, start: nat, n: nat) returns (r: Result<Parsed<seq<(nat, nat)>>>)
    ensures r == DecodeEntries(buf, start, n)
  {
    var entries: seq<(nat, nat)> := [];
    var pos := start;
    PrependNil(entries, pos, DecodeEntries(buf, start, n));
    for i := 0 to n
      invariant pos == start + 8 * i
      invariant DecodeEntries(buf, start, n) == Prepend(entries, DecodeEntries(buf, pos, n - i))
    {
      var offset :- Need(ReadU32(buf, pos));
      var len :- Need(ReadU32(buf, pos + 4));
      if offset + len > |buf| {
        return Err(BadStringEntry(offset, len));
      }
      PrependStep(entries, (offset, len), DecodeEntries(buf, pos + 8, n - i - 1));
      entries := entries + [(offset, len)];
      pos := pos + 8;
    }
    PrependNil(entries, pos, Ok(Parsed([], pos)));
    return Ok(Parsed(entries, pos));
  }

  method ReadTable(buf: seq<byte>, offset: nat) returns (r: Result<Parsed<StringTable>>)
    ensures r == DecodeTable(buf, offset)
  {
    if offset >= |buf| {
      return Err(BadStringTableOffset(offset));
    }
    var count :- Need(ReadU32(buf, offset));
    var entries :- ReadEntries(buf, offset + 4, count);
    var maxEnd := 0;
    for i := 0 to |entries.item|
      invariant maxEnd == MaxEnd(entries.item, i)
    {
      var end := entries.item[i].0 + entries.item[i].1;
      if end > maxEnd {
        maxEnd := end;
      }
    }
    return Ok(Parsed(StringTable(entries.item, entries.next), entries.next + maxEnd));
  }

  method ReadColumns(buf: seq<byte>, descriptors: seq<(nat, byte)>, table: StringTable, pos: nat)
    returns (r: Result<Parsed<seq<Column>>>)
    ensures r == DecodeColumns(buf, descriptors, 0, table, pos)
  {
    var columns: seq<Column> := [];
    PrependNil(columns, pos, DecodeColumns(buf, descriptors, 0, table, pos));
    for i := 0 to |descriptors|
      invariant DecodeColumns(buf, descriptors, 0, table, pos)
             == Prepend(columns, DecodeColumns(buf, descriptors, i, table, pos))
    {
      var name :- GetString(buf, table, descriptors[i].0);
      var column := Column(name, descriptors[i].1);
      PrependStep(columns, column, DecodeColumns(buf, descriptors, i + 1, table, pos));
      columns := columns + [column];
    }
    PrependNil(columns, pos, Ok(Parsed([], pos)));
    return Ok(Parsed(columns, pos));
  }

  method ReadCells(buf: seq<byte>, start: nat, n: nat, table: StringTable) returns (r: Result<Parsed<seq<RawCell>>>)
    ensures r == DecodeCells(buf, start, n, table)
  {
    var row: seq<RawCell> := [];
    var pos := start;
    PrependNil(row, pos, DecodeCells(buf, start, n, table));
    for i := 0 to n
      invariant DecodeCells(buf, start, n, table) == Prepend(row, DecodeCells(buf, pos, n - i, table))
    {
      var c :- DecodeCell(buf, pos, table);
      PrependStep(row, c.item, DecodeCells(buf, c.next, n - i - 1, table));
      row := row + [c.item];
      pos := c.next;
    }
    PrependNil(row, pos, Ok(Parsed([], pos)));
    return Ok(Parsed(row, pos));
  }

  method ReadRows(buf: seq<byte>, start: nat, n: nat, cols: nat, table: StringTable)
    returns (r: Result<Parsed<seq<seq<RawCell>>>>)
    ensures r == DecodeRows(buf, start, n, cols, table)
  {
    var rows: seq<seq<RawCell>> := [];
    var pos := start;
    PrependNil(rows, pos, DecodeRows(buf, start, n, cols, table));
    for i := 0 to n
      invariant DecodeRows(buf, start, n, cols, table) == Prepend(rows, DecodeRows(buf, pos, n - i, cols, table))
    {
      var row :- ReadCells(buf, pos, cols, table);
      PrependStep(rows, row.item, DecodeRows(buf, row.next, n - i - 1, cols, table));
      rows := rows + [row.item];
      pos := row.next;
    }
    PrependNil(rows, pos, Ok(Parsed([], pos)));
    return Ok(Parsed(rows, pos));
  }

  method DecodeRawResult(buf: seq<byte>) returns (r: Result<Parsed<RawResult>>)
    ensures r == Decode(buf)
  {
    var h :- DecodeHeader(buf);
    var descriptors :- ReadDescriptors(buf, HEADER_SIZE, h.colCount);
    var table :- ReadTable(buf, h.tableOffset);
    var columns :- ReadColumns(buf, descriptors.item, table.item, table.next);
    var rows :- ReadRows(buf, columns.next, h.rowCount, h.colCount, table.item);
    return Ok(Parsed(RawResult(columns.item, rows.item, h.rowCount, h.rowsAffected), rows.next));
  }
}
