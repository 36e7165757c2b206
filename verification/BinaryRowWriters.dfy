/** `BinaryRowWriter`: streams cells into the binary format, interning strings as it goes. */
module BinaryRowWriters {
  import opened ByteCodec
  import opened RowFormat
  import opened RowDecoder
  import opened RowRoundTrip

  /** Indices that `old` handed out are still good in `index`. */
  ghost predicate Extends(index: map<Text, nat>, before: map<Text, nat>) {
    forall t :: t in before ==> t in index && index[t] == before[t]
  }

  lemma {:induction false} EncodeRowExtends(cells: seq<Cell>, before: map<Text, nat>, index: map<Text, nat>)
    requires Indexed(cells, before) && Extends(index, before)
    ensures Indexed(cells, index) && EncodeRow(cells, index) == EncodeRow(cells, before)
  {
    if cells != [] {
      EncodeRowExtends(cells[1..], before, index);
    }
  }

  lemma {:induction false} EncodeRowsExtends(rows: seq<seq<Cell>>, before: map<Text, nat>, index: map<Text, nat>)
    requires RowsIndexed(rows, before) && Extends(index, before)
    ensures RowsIndexed(rows, index) && EncodeRows(rows, index) == EncodeRows(rows, before)
  {
    forall r | 0 <= r < |rows| ensures Indexed(rows[r], index) {
      EncodeRowExtends(rows[r], before, index);
    }
    if rows != [] {
      EncodeRowExtends(rows[0], before, index);
      EncodeRowsExtends(rows[1..], before, index);
    }
  }

  lemma {:induction false} EncodeRowSnoc(cells: seq<Cell>, c: Cell, index: map<Text, nat>)
    requires Indexed(cells, index) && (c.Str? ==> c.utf8 in index)
    ensures Indexed(cells + [c], index)
    ensures EncodeRow(cells + [c], index) == EncodeRow(cells, index) + EncodeCell(c, index)
  {
    hide EncodeCell;
    if cells == [] {
      assert [c][1..] == [] && cells + [c] == [c];
    } else {
      assert (cells + [c])[1..] == cells[1..] + [c];
      EncodeRowSnoc(cells[1..], c, index);
    }
  }

  lemma {:induction false} EncodeRowsSnoc(rows: seq<seq<Cell>>, row: seq<Cell>, index: map<Text, nat>)
    requires RowsIndexed(rows, index) && Indexed(row, index)
    ensures RowsIndexed(rows + [row], index)
    ensures EncodeRows(rows + [row], index) == EncodeRows(rows, index) + EncodeRow(row, index)
  {
    hide EncodeRow;
    if rows == [] {
      assert [row][1..] == [] && rows + [row] == [row];
    } else {
      assert (rows + [row])[1..] == rows[1..] + [row];
      EncodeRowsSnoc(rows[1..], row, index);
    }
  }

  class BinaryRowWriter {
    var rowData: seq<byte>
    var stringMap: map<Text, nat>
    var stringTable: seq<Text>
    var rowCount: nat
    const colCount: u16
    /** The rows ended so far and the cells of the row being written. */
    ghost var rows: seq<seq<Cell>>
    ghost var openRow: seq<Cell>

    /** Map and table are inverse to each other, and the row data is what was written. */
    ghost predicate Valid()
      reads this
    {
      && Interned(stringTable, stringMap)
      && RowsIndexed(rows, stringMap) && Indexed(openRow, stringMap)
      && rowCount == |rows|
      && rowData == EncodeRows(rows, stringMap) + EncodeRow(openRow, stringMap)
    }

    constructor (colCount: u16)
      ensures Valid() && this.colCount == colCount
      ensures rows == [] && openRow == [] && stringTable == []
    {
      this.colCount := colCount;
      rowData, stringMap, stringTable, rowCount := [], map[], [], 0;
      rows, openRow := [], [];
    }

    method InternString(s: Text) returns (idx: nat)
      requires Valid()
      modifies this`stringMap, this`stringTable
      ensures Valid()
      ensures Extends(stringMap, old(stringMap)) && old(stringTable) <= stringTable
      ensures s in stringMap && stringMap[s] == idx < |stringTable|
      ensures stringTable == if s in old(stringMap) then old(stringTable) else old(stringTable) + [s]
    {
      if s in stringMap {
        return stringMap[s];
      }
      ghost var before := stringMap;
      idx := |stringTable|;
      stringMap := stringMap[s := idx];
      stringTable := stringTable + [s];
      EncodeRowsExtends(rows, before, stringMap);
      EncodeRowExtends(openRow, before, stringMap);
    }

    method InternColumnNames(names: seq<Text>) returns (indices: seq<nat>)
      requires Valid()
      modifies this`stringMap, this`stringTable
      ensures Valid()
      ensures Extends(stringMap, old(stringMap)) && old(stringTable) <= stringTable
      ensures |indices| == |names|
      ensures forall i :: 0 <= i < |names| ==> indices[i] < |stringTable| && stringTable[indices[i]] == names[i]
      ensures stringTable == InternAll(old(stringTable), names)
    {
      hide EncodeRow, EncodeRows, Indexed, RowsIndexed, InternAll;
      InternAllNil(stringTable);
      indices := [];
      for i := 0 to |names|
        invariant Valid()
        invariant Extends(stringMap, old(stringMap)) && old(stringTable) <= stringTable
        invariant |indices| == i
        invariant forall k :: 0 <= k < i ==> indices[k] < |stringTable| && stringTable[indices[k]] == names[k]
        invariant stringTable == InternAll(old(stringTable), names[..i])
      {
        InternAllSnoc(old(stringTable), names[..i], names[i]);
        assert names[..i + 1] == names[..i] + [names[i]];
        assert names[i] in stringMap <==> names[i] in stringTable;
        var idx := InternString(names[i]);
        indices := indices + [idx];
      }
      assert names[..|names|] == names;
    }

    /** The words of a decimal magnitude, one push per word. */
    method WriteWords(words: seq<u32>)
      modifies this`rowData
      ensures rowData == old(rowData) + WordsLe(words)
    {
      assert words[0..] == words;
      for i := 0 to |words|
        invariant rowData + WordsLe(words[i..]) == old(rowData) + WordsLe(words)
      {
        assert words[i..][1..] == words[i + 1..];
        rowData := rowData + Le32(words[i]);
        assert rowData + WordsLe(words[i + 1..])
            == rowData[..|rowData| - 4] + (Le32(words[i]) + WordsLe(words[i + 1..]));
      }
      assert rowData + [] == rowData;
    }

    /** Pushes fields one after another; `fields` lists them right-nested, as the format does. */
    method Push2(a: seq<byte>, b: seq<byte>)
      modifies this`rowData
      ensures rowData == old(rowData) + (a + b)
    {
      rowData := rowData + a;
      rowData := rowData + b;
    }

    method Push3(a: seq<byte>, b: seq<byte>, c: seq<byte>)
      modifies this`rowData
      ensures rowData == old(rowData) + (a + (b + c))
    {
      rowData := rowData + a;
      Push2(b, c);
    }

    method Push4(a: seq<byte>, b: seq<byte>, c: seq<byte>, d: seq<byte>)
      modifies this`rowData
      ensures rowData == old(rowData) + (a + (b + (c + d)))
    {
      rowData := rowData + a;
      Push3(b, c, d);
    }

    /** Appends one tagged cell; the arms are the `write_*` methods of the row-writer interface. */
    method WriteCell(c: Cell)
      requires Valid()
      modifies this`rowData, this`stringMap, this`stringTable, this`openRow
      ensures Valid() && openRow == old(openRow) + [c]
      ensures Extends(stringMap, old(stringMap)) && old(stringTable) <= stringTable
      ensures stringTable == InternCell(old(stringTable), c)
      ensures c.Str? ==> c.utf8 in stringMap
      ensures rowData == old(rowData) + EncodeCell(c, stringMap)
    {
      hide EncodeRows, EncodeRow, EncodeCell, Le32;
      if c.Str? {
        assert c.utf8 in stringMap <==> c.utf8 in stringTable;
        var idx := InternString(c.utf8);
        StrBytes(c, stringMap);
        Push2([TAG_STRING_REF], Le32(idx));
      } else {
        PushFields(c, stringMap);
      }
      EncodeRowSnoc(openRow, c, stringMap);
      Regroup(EncodeRows(rows, stringMap), EncodeRow(openRow, stringMap), EncodeCell(c, stringMap));
      openRow := openRow + [c];
    }

    /** The arms that touch only the row data. */
    method PushFields(c: Cell, ghost index: map<Text, nat>)
      requires !c.Str?
      modifies this`rowData
      ensures rowData == old(rowData) + EncodeCell(c, index)
    {
      hide Le16, Le32, Le64, BoolByte;
      if c.Decimal? || c.Vector? || c.Time? || c.DateTime? || c.SmallDateTime? || c.DateTime2? || c.DateTimeOffset? {
        PushStructured(c, index);
        return;
      }
      match c
      case Null => rowData := rowData + [TAG_NULL];
      case Bool(b) => Push2([TAG_BOOL], [BoolByte(b)]);
      case U8(v) => Push2([TAG_U8], [v]);
      case I16(v) => Push2([TAG_I16], Le16(v));
      case I32(v) => Push2([TAG_I32], Le32(v));
      case I64(v) => Push2([TAG_I64], Le64(v));
      case F32(bits) => Push2([TAG_F32], Le32(bits));
      case F64(bits) => Push2([TAG_F64], Le64(bits));
      case Blob(d) => Push3([TAG_BYTES], Le32(|d|), d);
      case Uuid(id) => Push2([TAG_UUID], id);
      case Date(d) => Push2([TAG_DATE], Le32(d));
      case Money(lsb, msb) => Push3([TAG_MONEY], Le32(lsb), Le32(msb));
      case SmallMoney(v) => Push2([TAG_SMALLMONEY], Le32(v));
    }

    method PushStructured(c: Cell, ghost index: map<Text, nat>)
      requires
        || c.Decimal? || c.Vector? || c.Time? || c.DateTime? || c.SmallDateTime?
        || c.DateTime2? || c.DateTimeOffset?
      modifies this`rowData
      ensures rowData == old(rowData) + EncodeCell(c, index)
    {
      hide Le16, Le32, Le64, Words, WordsLe, BoolByte;
      match c
      case Decimal(_, _, _, _) => PushDecimal(c, index);
      case Time(scale, t) => Push3([TAG_TIME], [scale], Le64(t));
      case DateTime(d, t) => Push3([TAG_DATETIME], Le32(d), Le32(t));
      case SmallDateTime(d, t) => Push3([TAG_SMALLDATETIME], Le16(d), Le16(t));
      case DateTime2(scale, t, d) => Push4([TAG_DATETIME2], [scale], Le64(t), Le32(d));
      case DateTimeOffset(scale, t, d, o) =>
        rowData := rowData + [TAG_DATETIMEOFFSET];
        Push4([scale], Le64(t), Le32(d), Le16(o));
      case Vector(_) => PushVector(c, index);
    }

    method PushVector(c: Cell, ghost index: map<Text, nat>)
      requires c.Vector?
      modifies this`rowData
      ensures rowData == old(rowData) + EncodeCell(c, index)
    {
      hide Le32, WordsLe;
      match c.floats {
        case None => Push2([TAG_BYTES], Le32(0));
        case Some(fs) =>
          Push2([TAG_BYTES], Le32(4 * |fs|));
          WriteWords(fs);
      }
    }

    method PushDecimal(c: Cell, ghost index: map<Text, nat>)
      requires c.Decimal?
      modifies this`rowData
      ensures rowData == old(rowData) + EncodeCell(c, index)
    {
      hide Words, WordsLe, BoolByte;
      rowData := rowData + [TAG_DECIMAL];
      Push4([BoolByte(c.isPositive)], [c.scale], [c.precision], [|Words(c.magnitude)| % 256]);
      WriteWords(Words(c.magnitude));
    }

    method EndRow()
      requires Valid()
      modifies this`rowCount, this`rows, this`openRow
      ensures Valid() && rows == old(rows) + [old(openRow)] && openRow == []
    {
      EncodeRowsSnoc(rows, openRow, stringMap);
      rowCount := rowCount + 1;
      rows := rows + [openRow];
      openRow := [];
      assert rowData + [] == rowData;
    }

    /** Everything this writer holds has room in the format. */
    ghost predicate Fits()
      reads this
    {
      && TableFits(stringTable) && RowsFit(rows)
      && forall r :: 0 <= r < |rows| ==> |rows[r]| == colCount
    }

    method Finalize(names: seq<nat>, types: seq<byte>, rowsAffected: i32) returns (buf: seq<byte>)
      requires Valid()
      ensures buf == Layout(colCount, rowCount, rowsAffected, names, types, stringTable, rowData)
      ensures Fits() && (forall i :: 0 <= i < colCount ==> NameAt(names, i) < |stringTable|) ==>
                Decode(buf) == Ok(Parsed(Expected(colCount, rowsAffected, names, types, stringTable, rows),
                                         |buf| - |EncodeRow(openRow, stringMap)|))
    {
      hide Le32, HeaderBytes, ColumnBytes, EntryBytes, DataLen, EncodeRow, EncodeRows, StringData, Decode;
      var strData, strOffsets := BuildStringData();
      buf := HeaderBytes(colCount, rowCount, rowsAffected);
      var columns := PushColumns(names, types);
      buf := buf + columns;
      buf := buf + Le32(|stringTable|);
      var entries := PushEntries(strOffsets);
      buf := buf + entries;
      buf := buf + strData;
      buf := buf + rowData;
      assert buf == Layout(colCount, rowCount, rowsAffected, names, types, stringTable, rowData);
      if Fits() && (forall i :: 0 <= i < colCount ==> NameAt(names, i) < |stringTable|) {
        LayoutRoundTrip(colCount, rowsAffected, names, types, stringTable, stringMap, rows,
                        EncodeRow(openRow, stringMap));
      }
    }

    /** The string data and the offset and length of every entry in it. */
    method BuildStringData() returns (strData: seq<byte>, strOffsets: seq<(nat, nat)>)
      ensures strData == StringData(stringTable) && |strOffsets| == |stringTable|
      ensures forall k {:trigger strOffsets[k]} :: 0 <= k < |stringTable| ==>
                strOffsets[k] == (DataLen(stringTable, k), |stringTable[k]|)
    {
      var table := stringTable;
      strData := [];
      strOffsets := [];
      for i := 0 to |table|
        invariant strData == Flatten(table[..i]) && |strData| == DataLen(table, i)
        invariant |strOffsets| == i
        invariant forall k {:trigger strOffsets[k]} :: 0 <= k < i ==> strOffsets[k] == (DataLen(table, k), |table[k]|)
      {
        hide Flatten;
        var offset := |strData|;
        assert table[..i + 1] == table[..i] + [table[i]];
        FlattenSnoc(table[..i], table[i]);
        strData := strData + table[i];
        strOffsets := strOffsets + [(offset, |table[i]|)];
      }
      assert table[..|table|] == table;
    }

    /** The descriptor loop of `finalize`. */
    method PushColumns(names: seq<nat>, types: seq<byte>) returns (out: seq<byte>)
      ensures out == ColumnBytes(names, types, 0, colCount)
    {
      out := [];
      for i := 0 to colCount
        invariant out + ColumnBytes(names, types, i, colCount) == ColumnBytes(names, types, 0, colCount)
      {
        hide Le32;
        ghost var rest := ColumnBytes(names, types, i + 1, colCount);
        assert out + (Le32(NameAt(names, i)) + ([TypeAt(types, i)] + rest))
            == out + Le32(NameAt(names, i)) + [TypeAt(types, i)] + rest;
        out := out + Le32(NameAt(names, i));
        out := out + [TypeAt(types, i)];
      }
      assert out + [] == out;
    }

    /** The string entry loop of `finalize`. */
    method PushEntries(strOffsets: seq<(nat, nat)>) returns (out: seq<byte>)
      requires |strOffsets| == |stringTable|
      requires forall k {:trigger strOffsets[k]} :: 0 <= k < |stringTable| ==>
                 strOffsets[k] == (DataLen(stringTable, k), |stringTable[k]|)
      ensures out == EntryBytes(stringTable, 0)
    {
      hide Le32, DataLen;
      var table := stringTable;
      out := [];
      for i := 0 to |strOffsets|
        invariant out + EntryBytes(table, i) == EntryBytes(table, 0)
      {
        ghost var rest := EntryBytes(table, i + 1);
        assert out + (Le32(strOffsets[i].0) + (Le32(strOffsets[i].1) + rest))
            == out + Le32(strOffsets[i].0) + Le32(strOffsets[i].1) + rest;
        out := out + Le32(strOffsets[i].0);
        out := out + Le32(strOffsets[i].1);
      }
      assert out + [] == out;
    }
  }

  lemma StrBytes(c: Cell, index: map<Text, nat>)
    requires c.Str? && c.utf8 in index
    ensures EncodeCell(c, index) == [TAG_STRING_REF] + Le32(index[c.utf8])
  {
  }

  /** The string table after interning one more string. */
  function Intern(table: seq<Text>, s: Text): seq<Text> {
    if s in table then table else table + [s]
  }

  function InternAll(table: seq<Text>, names: seq<Text>): seq<Text>
    decreases |names|
  {
    if names == [] then table else InternAll(Intern(table, names[0]), names[1..])
  }

  function InternCell(table: seq<Text>, c: Cell): seq<Text> {
    if c.Str? then Intern(table, c.utf8) else table
  }

  lemma InternAllNil(table: seq<Text>)
    ensures InternAll(table, []) == table
  {
  }

  lemma {:induction false} InternAllSnoc(table: seq<Text>, names: seq<Text>, s: Text)
    ensures InternAll(table, names + [s]) == Intern(InternAll(table, names), s)
    decreases |names|
  {
    if names == [] {
      assert names + [s] == [s] && [s][1..] == [];
    } else {
      assert (names + [s])[1..] == names[1..] + [s];
      InternAllSnoc(Intern(table, names[0]), names[1..], s);
    }
  }
}
