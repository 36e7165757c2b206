/** Decoding a finalized buffer gives back what the writer was told. */
module RowRoundTrip {
  import opened ByteCodec
  import opened RowFormat
  import opened RowDecoder

  // Decimal magnitudes

  lemma {:induction false} WordsValueOfWords(m: nat)
    ensures WordsValue(Words(m)) == m
  {
    if m >= TWO32 {
      WordsValueOfWords(m / TWO32);
      assert Words(m)[1..] == Words(m / TWO32);
    } else {
      assert Words(m)[1..] == [];
    }
  }

  lemma WordCount(m: u128)
    ensures |Words(m)| <= 4
  {
    var a := m / TWO32;
    var b := a / TWO32;
    var c := b / TWO32;
    assert c < TWO32;
    assert b >= TWO32 ==> Words(b) == [b % TWO32] + Words(c);
    assert a >= TWO32 ==> Words(a) == [a % TWO32] + Words(b);
  }

  lemma Distribute(a: int, b: int, w: int)
    ensures (a + TWO32 * b) * w == a * w + b * (w * TWO32)
  {
  }

  lemma {:induction false} ReadWordsAt(buf: seq<byte>, pos: nat, ws: seq<u32>, sum: nat, weight: nat)
    requires At(buf, pos, WordsLe(ws))
    ensures ReadWords(buf, pos, |ws|, sum, weight) == Ok(Parsed(sum + WordsValue(ws) * weight, pos + 4 * |ws|))
    decreases |ws|
  {
    hide At, Le16, Le32, Le64, ReadU8, ReadU16, ReadU32, ReadU64;
    if ws != [] {
      AtConcat(buf, pos, Le32(ws[0]), WordsLe(ws[1..]));
      ReadU32At(buf, pos, ws[0]);
      ReadWordsAt(buf, pos + 4, ws[1..], sum + ws[0] * weight, weight * TWO32);
      Distribute(ws[0], WordsValue(ws[1..]), weight);
    }
  }

  // Cells

  /** Reading the string table at a string's index gives that string. */
  ghost predicate Resolves(buf: seq<byte>, table: StringTable, index: map<Text, nat>) {
    forall t :: t in index ==> index[t] < TWO32 && GetString(buf, table, index[t]) == Ok(t)
  }

  lemma SubarrayAt(buf: seq<byte>, pos: nat, s: seq<byte>)
    requires At(buf, pos, s)
    ensures Subarray(buf, pos, pos + |s|) == s
  {
  }

  lemma Join64OfLe64(buf: seq<byte>, pos: nat, v: i64)
    requires At(buf, pos, Le64(v))
    ensures ReadU32(buf, pos).Some? && ReadU32(buf, pos + 4).Some?
    ensures Join64(ReadU32(buf, pos).value, Signed32(ReadU32(buf, pos + 4).value)) == v
  {
    AtConcat(buf, pos, Le32(v), Le32(v / TWO32));
    ReadU32At(buf, pos, v);
    ReadU32At(buf, pos + 4, v / TWO32);
    var hi: i32 := v / TWO32;
    Signed32Le32(hi);
    U32Le32(hi);
  }

  lemma DecimalRoundTrip(c: Cell, index: map<Text, nat>, buf: seq<byte>, p: nat, table: StringTable)
    requires c.Decimal?
    requires At(buf, p, EncodeCell(c, index)[1..])
    ensures DecodeWideCell(buf, p, TAG_DECIMAL, table) == Ok(Parsed(Kept(c), p + |EncodeCell(c, index)| - 1))
  {
    hide At, Le16, Le32, Le64, ReadU8, ReadU16, ReadU32, ReadU64, Words, WordsLe, WordsValue, ReadWords;
    var ws := Words(c.magnitude);
    WordCount(c.magnitude);
    var t3 := [|ws| % 256] + WordsLe(ws);
    var t2 := [c.precision] + t3;
    var t1 := [c.scale] + t2;
    assert EncodeCell(c, index)[1..] == [BoolByte(c.isPositive)] + t1;
    AtConcat(buf, p, [BoolByte(c.isPositive)], t1);
    AtConcat(buf, p + 1, [c.scale], t2);
    AtConcat(buf, p + 2, [c.precision], t3);
    AtConcat(buf, p + 3, [|ws| % 256], WordsLe(ws));
    ReadU8At(buf, p, BoolByte(c.isPositive));
    ReadU8At(buf, p + 1, c.scale);
    ReadU8At(buf, p + 3, |ws| % 256);
    ReadWordsAt(buf, p + 4, ws, 0, 1);
    WordsValueOfWords(c.magnitude);
  }

  lemma NarrowRoundTrip(c: Cell, index: map<Text, nat>, buf: seq<byte>, pos: nat, table: StringTable)
    requires c.Null? || c.Bool? || c.U8? || c.I16? || c.I32? || c.I64? || c.F32? || c.F64?
    requires At(buf, pos, EncodeCell(c, index))
    ensures DecodeCell(buf, pos, table) == Ok(Parsed(Kept(c), pos + |EncodeCell(c, index)|))
  {
    hide At, Le16, Le32, Le64, ReadU8, ReadU16, ReadU32, ReadU64, Signed16, Signed32;
    var tag := EncodeCell(c, index)[0];
    var rest := EncodeCell(c, index)[1..];
    assert EncodeCell(c, index) == [tag] + rest;
    AtConcat(buf, pos, [tag], rest);
    ReadU8At(buf, pos, tag);
    match c
    case Null =>
    case Bool(b) => assert rest == [BoolByte(b)]; ReadU8At(buf, pos + 1, BoolByte(b));
    case U8(v) => assert rest == [v]; ReadU8At(buf, pos + 1, v);
    case I16(v) => assert rest == Le16(v); ReadU16At(buf, pos + 1, v); Signed16Le16(v); U16Le16(v);
    case I32(v) => assert rest == Le32(v); ReadU32At(buf, pos + 1, v); Signed32Le32(v); U32Le32(v);
    case I64(v) => assert rest == Le64(v); Join64OfLe64(buf, pos + 1, v);
    case F32(v) => assert rest == Le32(v); ReadU32At(buf, pos + 1, v);
    case F64(v) => assert rest == Le64(v); ReadU64At(buf, pos + 1, v);
  }

  lemma BufferRoundTrip(d: seq<byte>, buf: seq<byte>, pos: nat, table: StringTable)
    requires |d| < TWO32
    requires At(buf, pos, [TAG_BYTES] + (Le32(|d|) + d))
    ensures DecodeCell(buf, pos, table) == Ok(Parsed(RawBuffer(d), pos + 5 + |d|))
  {
    hide At, Le32, ReadU8, ReadU32, Subarray;
    AtConcat(buf, pos, [TAG_BYTES], Le32(|d|) + d);
    ReadU8At(buf, pos, TAG_BYTES);
    AtConcat(buf, pos + 1, Le32(|d|), d);
    ReadU32At(buf, pos + 1, |d|);
    SubarrayAt(buf, pos + 5, d);
  }

  lemma VariableRoundTrip(c: Cell, index: map<Text, nat>, buf: seq<byte>, pos: nat, table: StringTable)
    requires c.Str? || c.Blob? || c.Vector?
    requires CellFits(c) && Resolves(buf, table, index)
    requires c.Str? ==> c.utf8 in index
    requires At(buf, pos, EncodeCell(c, index))
    ensures DecodeCell(buf, pos, table) == Ok(Parsed(Kept(c), pos + |EncodeCell(c, index)|))
  {
    hide At, Le32, ReadU8, ReadU32, Subarray, GetString, WordsLe;
    match c
    case Str(t) =>
      AtConcat(buf, pos, [TAG_STRING_REF], Le32(index[t]));
      ReadU8At(buf, pos, TAG_STRING_REF);
      ReadU32At(buf, pos + 1, index[t]);
    case Blob(d) =>
      BufferRoundTrip(d, buf, pos, table);
    case Vector(None) =>
      assert Le32(0) == Le32(0) + [];
      BufferRoundTrip([], buf, pos, table);
    case Vector(Some(fs)) =>
      BufferRoundTrip(WordsLe(fs), buf, pos, table);
  }

  lemma WideRoundTrip(c: Cell, index: map<Text, nat>, buf: seq<byte>, p: nat, table: StringTable)
    requires c.Uuid? || c.Date? || c.Time? || c.DateTime? || c.SmallDateTime?
    requires At(buf, p, EncodeCell(c, index)[1..])
    ensures DecodeWideCell(buf, p, EncodeCell(c, index)[0], table)
         == Ok(Parsed(Kept(c), p + |EncodeCell(c, index)| - 1))
  {
    hide At, Le16, Le32, Le64, ReadU8, ReadU16, ReadU32, ReadU64, Signed32, Subarray, UuidText;
    var rest := EncodeCell(c, index)[1..];
    match c
    case Uuid(id) => assert rest == id; SubarrayAt(buf, p, id);
    case Date(d) => assert rest == Le32(d); ReadU32At(buf, p, d);
    case Time(scale, t) =>
      assert rest == [scale] + Le64(t);
      AtConcat(buf, p, [scale], Le64(t));
      ReadU64At(buf, p + 1, t);
    case DateTime(d, t) =>
      assert rest == Le32(d) + Le32(t);
      AtConcat(buf, p, Le32(d), Le32(t));
      ReadU32At(buf, p, d);
      ReadU32At(buf, p + 4, t);
      Signed32Le32(d);
      U32Le32(d);
    case SmallDateTime(d, t) =>
      assert rest == Le16(d) + Le16(t);
      AtConcat(buf, p, Le16(d), Le16(t));
      ReadU16At(buf, p, d);
      ReadU16At(buf, p + 2, t);
  }

  lemma MoneyRoundTrip(c: Cell, index: map<Text, nat>, buf: seq<byte>, p: nat, table: StringTable)
    requires c.Money? || c.SmallMoney?
    requires At(buf, p, EncodeCell(c, index)[1..])
    ensures DecodeWideCell(buf, p, EncodeCell(c, index)[0], table)
         == Ok(Parsed(Kept(c), p + |EncodeCell(c, index)| - 1))
  {
    hide At, Le16, Le32, Le64, ReadU8, ReadU16, ReadU32, ReadU64, Signed32, Subarray, UuidText;
    var rest := EncodeCell(c, index)[1..];
    match c
    case Money(lsb, msb) =>
      assert rest == Le32(lsb) + Le32(msb);
      AtConcat(buf, p, Le32(lsb), Le32(msb));
      ReadU32At(buf, p, lsb);
      ReadU32At(buf, p + 4, msb);
      Signed32Le32(msb);
      U32Le32(msb);
    case SmallMoney(v) =>
      assert rest == Le32(v);
      ReadU32At(buf, p, v);
      Signed32Le32(v);
      U32Le32(v);
  }

  lemma DateTime2RoundTrip(c: Cell, index: map<Text, nat>, buf: seq<byte>, p: nat, table: StringTable)
    requires c.DateTime2? || c.DateTimeOffset?
    requires At(buf, p, EncodeCell(c, index)[1..])
    ensures DecodeWideCell(buf, p, EncodeCell(c, index)[0], table)
         == Ok(Parsed(Kept(c), p + |EncodeCell(c, index)| - 1))
  {
    hide At, Le16, Le32, Le64, ReadU8, ReadU16, ReadU32, ReadU64;
    var rest := EncodeCell(c, index)[1..];
    match c
    case DateTime2(scale, t, d) =>
      assert rest == [scale] + (Le64(t) + Le32(d));
      AtConcat(buf, p, [scale], Le64(t) + Le32(d));
      AtConcat(buf, p + 1, Le64(t), Le32(d));
      ReadU64At(buf, p + 1, t);
      ReadU32At(buf, p + 9, d);
    case DateTimeOffset(scale, t, d, o) =>
      assert rest == [scale] + (Le64(t) + (Le32(d) + Le16(o)));
      AtConcat(buf, p, [scale], Le64(t) + (Le32(d) + Le16(o)));
      AtConcat(buf, p + 1, Le64(t), Le32(d) + Le16(o));
      AtConcat(buf, p + 9, Le32(d), Le16(o));
      ReadU64At(buf, p + 1, t);
      ReadU32At(buf, p + 9, d);
  }

  lemma CellRoundTrip(c: Cell, index: map<Text, nat>, buf: seq<byte>, pos: nat, table: StringTable)
    requires CellFits(c) && Resolves(buf, table, index)
    requires c.Str? ==> c.utf8 in index
    requires At(buf, pos, EncodeCell(c, index))
    ensures DecodeCell(buf, pos, table) == Ok(Parsed(Kept(c), pos + |EncodeCell(c, index)|))
  {
    hide At, EncodeCell, DecodeCell, Kept;
    if c.Null? || c.Bool? || c.U8? || c.I16? || c.I32? || c.I64? || c.F32? || c.F64? {
      NarrowRoundTrip(c, index, buf, pos, table);
    } else if c.Str? || c.Blob? || c.Vector? {
      VariableRoundTrip(c, index, buf, pos, table);
    } else {
      TaggedRoundTrip(c, index, buf, pos, table);
    }
  }

  ghost predicate IsWide(c: Cell) {
    || c.Decimal? || c.Uuid? || c.Date? || c.Time? || c.DateTime? || c.SmallDateTime?
    || c.DateTime2? || c.DateTimeOffset? || c.Money? || c.SmallMoney?
  }

  lemma WideTag(c: Cell, index: map<Text, nat>)
    requires IsWide(c)
    ensures |EncodeCell(c, index)| >= 1
    ensures var tag := EncodeCell(c, index)[0];
            && (c.Decimal? ==> tag == TAG_DECIMAL)
            && tag != TAG_NULL && tag != TAG_BOOL && tag != TAG_U8 && tag != TAG_I16 && tag != TAG_I32 && tag != TAG_I64
            && tag != TAG_F32 && tag != TAG_F64 && tag != TAG_STRING_REF && tag != TAG_BYTES
  {
    hide Le16, Le32, Le64, Words, WordsLe;
  }

  lemma TaggedRoundTrip(c: Cell, index: map<Text, nat>, buf: seq<byte>, pos: nat, table: StringTable)
    requires CellFits(c) && IsWide(c)
    requires At(buf, pos, EncodeCell(c, index))
    ensures DecodeCell(buf, pos, table) == Ok(Parsed(Kept(c), pos + |EncodeCell(c, index)|))
  {
    hide At, Kept, EncodeCell, DecodeWideCell, ReadU8;
    WideTag(c, index);
    var tag := EncodeCell(c, index)[0];
    var rest := EncodeCell(c, index)[1..];
    assert EncodeCell(c, index) == [tag] + rest;
    AtConcat(buf, pos, [tag], rest);
    ReadU8At(buf, pos, tag);
    if c.Decimal? {
      DecimalRoundTrip(c, index, buf, pos + 1, table);
    } else if c.DateTime2? || c.DateTimeOffset? {
      DateTime2RoundTrip(c, index, buf, pos + 1, table);
    } else if c.Money? || c.SmallMoney? {
      MoneyRoundTrip(c, index, buf, pos + 1, table);
    } else {
      WideRoundTrip(c, index, buf, pos + 1, table);
    }
  }

  // Rows

  lemma {:induction false} RowRoundTrips(cells: seq<Cell>, index: map<Text, nat>, buf: seq<byte>, pos: nat,
                                         table: StringTable)
    requires Indexed(cells, index) && Resolves(buf, table, index)
    requires forall i :: 0 <= i < |cells| ==> CellFits(cells[i])
    requires At(buf, pos, EncodeRow(cells, index))
    ensures DecodeCells(buf, pos, |cells|, table) == Ok(Parsed(KeptRow(cells), pos + |EncodeRow(cells, index)|))
    decreases |cells|
  {
    hide At, EncodeCell, DecodeCell, Kept, Resolves;
    if cells != [] {
      AtConcat(buf, pos, EncodeCell(cells[0], index), EncodeRow(cells[1..], index));
      CellRoundTrip(cells[0], index, buf, pos, table);
      RowRoundTrips(cells[1..], index, buf, pos + |EncodeCell(cells[0], index)|, table);
    }
  }

  lemma {:induction false} RowsRoundTrip(rows: seq<seq<Cell>>, cols: nat, index: map<Text, nat>, buf: seq<byte>,
                                         pos: nat, table: StringTable)
    requires RowsIndexed(rows, index) && Resolves(buf, table, index)
    requires forall r :: 0 <= r < |rows| ==> |rows[r]| == cols
    requires forall r, i :: 0 <= r < |rows| && 0 <= i < |rows[r]| ==> CellFits(rows[r][i])
    requires At(buf, pos, EncodeRows(rows, index))
    ensures DecodeRows(buf, pos, |rows|, cols, table) == Ok(Parsed(KeptRows(rows), pos + |EncodeRows(rows, index)|))
    decreases |rows|
  {
    hide At, EncodeRow, DecodeCells, KeptRow, Resolves;
    if rows != [] {
      AtConcat(buf, pos, EncodeRow(rows[0], index), EncodeRows(rows[1..], index));
      RowRoundTrips(rows[0], index, buf, pos, table);
      RowsRoundTrip(rows[1..], cols, index, buf, pos + |EncodeRow(rows[0], index)|, table);
    }
  }

  // Column descriptors

  function Descriptors(names: seq<nat>, types: seq<byte>, n: nat, colCount: nat): (ds: seq<(nat, byte)>)
    requires n <= colCount
    ensures |ds| == colCount - n
    decreases colCount - n
  {
    if n == colCount then [] else [(NameAt(names, n), TypeAt(types, n))] + Descriptors(names, types, n + 1, colCount)
  }

  lemma {:induction false} DescriptorAt(names: seq<nat>, types: seq<byte>, n: nat, colCount: nat, i: nat)
    requires n <= i < colCount
    ensures Descriptors(names, types, n, colCount)[i - n] == (NameAt(names, i), TypeAt(types, i))
    decreases colCount - n
  {
    if n < i {
      DescriptorAt(names, types, n + 1, colCount, i);
    }
  }

  lemma {:induction false} DescriptorsRoundTrip(names: seq<nat>, types: seq<byte>, n: nat, colCount: nat,
                                                buf: seq<byte>, pos: nat)
    requires n <= colCount
    requires forall i :: n <= i < colCount ==> NameAt(names, i) < TWO32
    requires At(buf, pos, ColumnBytes(names, types, n, colCount))
    ensures DecodeDescriptors(buf, pos, colCount - n)
         == Ok(Parsed(Descriptors(names, types, n, colCount), pos + 5 * (colCount - n)))
    ensures |ColumnBytes(names, types, n, colCount)| == 5 * (colCount - n)
    decreases colCount - n
  {
    hide At, Le16, Le32, Le64, ReadU8, ReadU16, ReadU32, ReadU64;
    if n < colCount {
      var rest := ColumnBytes(names, types, n + 1, colCount);
      AtConcat(buf, pos, Le32(NameAt(names, n)), [TypeAt(types, n)] + rest);
      AtConcat(buf, pos + 4, [TypeAt(types, n)], rest);
      ReadU32At(buf, pos, NameAt(names, n));
      ReadU8At(buf, pos + 4, TypeAt(types, n));
      DescriptorsRoundTrip(names, types, n + 1, colCount, buf, pos + 5);
    }
  }

  // String table

  function Entries(table: seq<Text>, n: nat): (es: seq<(nat, nat)>)
    requires n <= |table|
    ensures |es| == |table| - n
    decreases |table| - n
  {
    if n == |table| then [] else [(DataLen(table, n), |table[n]|)] + Entries(table, n + 1)
  }

  lemma {:induction false} EntryAt(table: seq<Text>, n: nat, i: nat)
    requires n <= i < |table|
    ensures Entries(table, n)[i - n] == (DataLen(table, i), |table[i]|)
    decreases |table| - n
  {
    if n < i {
      EntryAt(table, n + 1, i);
    }
  }

  lemma {:induction false} DataLenMono(table: seq<Text>, i: nat, j: nat)
    requires i <= j <= |table|
    ensures DataLen(table, i) <= DataLen(table, j)
    decreases j - i
  {
    if i < j {
      DataLenMono(table, i, j - 1);
    }
  }

  /** Entry `i` of the string data is the i-th string. */
  lemma {:induction false} DataAt(table: seq<Text>, n: nat)
    requires n <= |table|
    ensures Flatten(table[..n]) <= StringData(table) && |Flatten(table[..n])| == DataLen(table, n)
    ensures n < |table| ==> At(StringData(table), DataLen(table, n), table[n])
  {
    if n > 0 {
      DataAt(table, n - 1);
      assert table[..n] == table[..n - 1] + [table[n - 1]];
      FlattenSnoc(table[..n - 1], table[n - 1]);
    }
    FlattenAppend(table[..n], table[n..]);
    assert table == table[..n] + table[n..];
    if n < |table| {
      assert StringData(table) == Flatten(table[..n]) + (table[n] + Flatten(table[n..][1..]));
    }
  }

  /** The largest entry end is the length of the string data, because entries are laid end to end. */
  lemma {:induction false} MaxEndIsDataLen(table: seq<Text>, n: nat)
    requires n <= |table|
    ensures MaxEnd(Entries(table, 0), n) == DataLen(table, n)
  {
    if n > 0 {
      EntryAt(table, 0, n - 1);
      MaxEndIsDataLen(table, n - 1);
    }
  }

  lemma DataLenStep(table: seq<Text>, n: nat)
    requires n < |table|
    ensures DataLen(table, n + 1) == DataLen(table, n) + |table[n]|
  {
  }

  lemma {:induction false} EntriesRoundTrip(table: seq<Text>, n: nat, buf: seq<byte>, pos: nat)
    requires n <= |table| && TableFits(table)
    requires DataLen(table, |table|) <= |buf|
    requires At(buf, pos, EntryBytes(table, n))
    ensures DecodeEntries(buf, pos, |table| - n) == Ok(Parsed(Entries(table, n), pos + 8 * (|table| - n)))
    ensures |EntryBytes(table, n)| == 8 * (|table| - n)
    decreases |table| - n
  {
    hide At, Le16, Le32, Le64, ReadU8, ReadU16, ReadU32, ReadU64, DataLen;
    if n < |table| {
      var rest := EntryBytes(table, n + 1);
      DataLenStep(table, n);
      DataLenMono(table, n + 1, |table|);
      AtConcat(buf, pos, Le32(DataLen(table, n)), Le32(|table[n]|) + rest);
      AtConcat(buf, pos + 4, Le32(|table[n]|), rest);
      ReadU32At(buf, pos, DataLen(table, n));
      ReadU32At(buf, pos + 4, |table[n]|);
      EntriesRoundTrip(table, n + 1, buf, pos + 8);
    }
  }

  lemma AtInside(buf: seq<byte>, pos: nat, s: seq<byte>, off: nat, t: seq<byte>)
    requires At(buf, pos, s) && At(s, off, t)
    ensures At(buf, pos + off, t)
  {
    forall k | 0 <= k < |t|
      ensures buf[pos + off + k] == t[k]
    {
      assert buf[pos..pos + |s|][off + k] == s[off + k];
      assert s[off..off + |t|][k] == t[k];
    }
  }

  lemma TableResolves(table: seq<Text>, index: map<Text, nat>, buf: seq<byte>, dataStart: nat)
    requires Interned(table, index) && TableFits(table)
    requires At(buf, dataStart, StringData(table))
    ensures Resolves(buf, StringTable(Entries(table, 0), dataStart), index)
  {
    hide At, StringData, Entries, DataLen, Subarray;
    forall t | t in index
      ensures index[t] < TWO32
      ensures GetString(buf, StringTable(Entries(table, 0), dataStart), index[t]) == Ok(t)
    {
      var i := index[t];
      EntryAt(table, 0, i);
      DataAt(table, i);
      AtInside(buf, dataStart, StringData(table), DataLen(table, i), t);
      SubarrayAt(buf, dataStart + DataLen(table, i), t);
    }
  }

  ghost function TableBytes(table: seq<Text>, rowData: seq<byte>): seq<byte> {
    Le32(|table|) + (EntryBytes(table, 0) + (StringData(table) + rowData))
  }

  lemma DataLenIsLength(table: seq<Text>)
    ensures |StringData(table)| == DataLen(table, |table|)
  {
    DataAt(table, |table|);
    assert table[..|table|] == table;
  }

  /** Reading the string table finds every string and leaves the cursor at the row data. */
  lemma TableRoundTrip(table: seq<Text>, index: map<Text, nat>, rowData: seq<byte>, buf: seq<byte>, pos: nat)
    requires Interned(table, index) && TableFits(table)
    requires At(buf, pos, TableBytes(table, rowData))
    ensures var st := StringTable(Entries(table, 0), pos + 4 + 8 * |table|);
            var end := st.dataStart + DataLen(table, |table|);
            && DecodeTable(buf, pos) == Ok(Parsed(st, end))
            && Resolves(buf, st, index)
            && At(buf, end, rowData)
    ensures pos + |TableBytes(table, rowData)| == pos + 4 + 8 * |table| + DataLen(table, |table|) + |rowData|
  {
    hide Le32, ReadU32, EntryBytes, StringData, DecodeEntries, MaxEnd, Entries, Resolves, DataLen;
    var t4 := StringData(table) + rowData;
    AtConcat(buf, pos, Le32(|table|), EntryBytes(table, 0) + t4);
    ReadU32At(buf, pos, |table|);
    AtConcat(buf, pos + 4, EntryBytes(table, 0), t4);
    DataLenIsLength(table);
    EntriesRoundTrip(table, 0, buf, pos + 4);
    AtConcat(buf, pos + 4 + 8 * |table|, StringData(table), rowData);
    MaxEndIsDataLen(table, |table|);
    TableResolves(table, index, buf, pos + 4 + 8 * |table|);
  }

  /** The columns the decoder should report: name and type of every descriptor. */
  function ColumnsOf(table: seq<Text>, names: seq<nat>, types: seq<byte>, n: nat, colCount: nat): (cs: seq<Column>)
    requires n <= colCount
    requires forall i :: n <= i < colCount ==> NameAt(names, i) < |table|
    ensures |cs| == colCount - n
    decreases colCount - n
  {
    if n == colCount then []
    else [Column(table[NameAt(names, n)], TypeAt(types, n))] + ColumnsOf(table, names, types, n + 1, colCount)
  }

  lemma {:induction false} ColumnsRoundTrip(table: seq<Text>, index: map<Text, nat>, names: seq<nat>,
                                            types: seq<byte>, n: nat, colCount: nat,
                                            buf: seq<byte>, st: StringTable, pos: nat)
    requires n <= colCount && Interned(table, index) && Resolves(buf, st, index)
    requires forall i :: 0 <= i < colCount ==> NameAt(names, i) < |table|
    ensures DecodeColumns(buf, Descriptors(names, types, 0, colCount), n, st, pos)
         == Ok(Parsed(ColumnsOf(table, names, types, n, colCount), pos))
    decreases colCount - n
  {
    if n < colCount {
      DescriptorAt(names, types, 0, colCount, n);
      assert table[NameAt(names, n)] in index;
      ColumnsRoundTrip(table, index, names, types, n + 1, colCount, buf, st, pos);
    }
  }

  lemma HeaderRoundTrip(colCount: u16, rowCount: u32, rowsAffected: i32, buf: seq<byte>)
    requires At(buf, 0, HeaderBytes(colCount, rowCount, rowsAffected))
    ensures DecodeHeader(buf) == Ok(Header(colCount, rowCount, HEADER_SIZE + 5 * colCount, rowsAffected))
  {
    hide At, Le16, Le32, Le64, ReadU8, ReadU16, ReadU32, ReadU64, Signed32;
    var offset := HEADER_SIZE + 5 * colCount;
    var t4 := Le32(offset) + Le32(rowsAffected);
    var t3 := Le32(rowCount) + t4;
    var t2 := Le16(colCount) + t3;
    AtConcat(buf, 0, Le32(MAGIC), [FORMAT_VERSION] + t2);
    AtConcat(buf, 4, [FORMAT_VERSION], t2);
    AtConcat(buf, 5, Le16(colCount), t3);
    AtConcat(buf, 7, Le32(rowCount), t4);
    AtConcat(buf, 11, Le32(offset), Le32(rowsAffected));
    ReadU32At(buf, 0, MAGIC);
    ReadU8At(buf, 4, FORMAT_VERSION);
    ReadU16At(buf, 5, colCount);
    ReadU32At(buf, 7, rowCount);
    ReadU32At(buf, 11, offset);
    ReadU32At(buf, 15, rowsAffected);
    Signed32Le32(rowsAffected);
    U32Le32(rowsAffected);
  }

  /** What a buffer holding these rows decodes to. */
  ghost function Expected(colCount: nat, rowsAffected: i32, names: seq<nat>, types: seq<byte>, table: seq<Text>,
                          rows: seq<seq<Cell>>): RawResult
    requires forall i :: 0 <= i < colCount ==> NameAt(names, i) < |table|
  {
    RawResult(ColumnsOf(table, names, types, 0, colCount), KeptRows(rows), |rows|, rowsAffected)
  }

  /** The decoder recovers columns, counts and every cell of a finalized buffer, and stops right
      behind the last complete row; `open` is row data of a row that was never ended. */
  lemma LayoutRoundTrip(colCount: u16, rowsAffected: i32, names: seq<nat>, types: seq<byte>, table: seq<Text>,
                        index: map<Text, nat>,
                        rows: seq<seq<Cell>>, open: seq<byte>)
    requires Interned(table, index) && TableFits(table)
    requires RowsIndexed(rows, index) && RowsFit(rows)
    requires forall r :: 0 <= r < |rows| ==> |rows[r]| == colCount
    requires forall i :: 0 <= i < colCount ==> NameAt(names, i) < |table|
    ensures var buf := Layout(colCount, |rows|, rowsAffected, names, types, table, EncodeRows(rows, index) + open);
            Decode(buf) == Ok(Parsed(Expected(colCount, rowsAffected, names, types, table, rows), |buf| - |open|))
  {
    hide At, HeaderBytes, ColumnBytes, EncodeRows, DecodeRows, DecodeHeader, DecodeDescriptors, DecodeTable;
    hide DecodeColumns, Entries, DataLen, Resolves, KeptRows, ColumnsOf, Descriptors;
    var rowData := EncodeRows(rows, index) + open;
    var t2 := TableBytes(table, rowData);
    var head := HeaderBytes(colCount, |rows|, rowsAffected);
    var buf := Layout(colCount, |rows|, rowsAffected, names, types, table, rowData);
    assert buf == head + (ColumnBytes(names, types, 0, colCount) + t2);
    AtSelf(buf);
    AtConcat(buf, 0, head, ColumnBytes(names, types, 0, colCount) + t2);
    HeaderRoundTrip(colCount, |rows|, rowsAffected, buf);
    AtConcat(buf, HEADER_SIZE, ColumnBytes(names, types, 0, colCount), t2);
    DescriptorsRoundTrip(names, types, 0, colCount, buf, HEADER_SIZE);
    var p2 := HEADER_SIZE + 5 * colCount;
    TableRoundTrip(table, index, rowData, buf, p2);
    var st := StringTable(Entries(table, 0), p2 + 4 + 8 * |table|);
    var p5 := st.dataStart + DataLen(table, |table|);
    ColumnsRoundTrip(table, index, names, types, 0, colCount, buf, st, p5);
    AtConcat(buf, p5, EncodeRows(rows, index), open);
    RowsRoundTrip(rows, colCount, index, buf, p5, st);
    assert |buf| - |open| == p5 + |EncodeRows(rows, index)|;
  }
}
