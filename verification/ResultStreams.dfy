/** The two ways result sets reach JavaScript: one buffer per set (`query_raw`), or byte-budgeted
    chunks merged again (`fetch_chunk` and `createResultFast`). */
module ResultStreams {
  import opened ByteCodec
  import opened RowFormat
  import opened RowDecoder
  import opened RowRoundTrip
  import opened BinaryRowWriters

  datatype Metadata = Metadata(name: Text, dataType: byte)

  datatype ResultSet = ResultSet(columns: seq<Metadata>, rows: seq<seq<Cell>>)

  /** One statement of a batch, as the client walks over it. */
  datatype Statement = Rows(results: ResultSet) | NoRows

  datatype StatementResult = OnRows | OnNoRows | End

  datatype ChunkResult = ChunkResult(data: seq<byte>, hasMore: bool)

  function RowSets(batch: seq<Statement>): seq<ResultSet> {
    if batch == [] then []
    else (if batch[0].Rows? then [batch[0].results] else []) + RowSets(batch[1..])
  }

  function Names(columns: seq<Metadata>): (ns: seq<Text>)
    ensures |ns| == |columns|
    ensures forall i :: 0 <= i < |columns| ==> ns[i] == columns[i].name
  {
    seq(|columns|, i requires 0 <= i < |columns| => columns[i].name)
  }

  function Types(columns: seq<Metadata>): (ts: seq<byte>)
    ensures |ts| == |columns|
    ensures forall i :: 0 <= i < |columns| ==> ts[i] == columns[i].dataType
  {
    seq(|columns|, i requires 0 <= i < |columns| => columns[i].dataType)
  }

  function DecodedColumns(columns: seq<Metadata>): (cs: seq<Column>)
    ensures |cs| == |columns|
    ensures forall i :: 0 <= i < |columns| ==> cs[i] == Column(columns[i].name, columns[i].dataType)
  {
    seq(|columns|, i requires 0 <= i < |columns| => Column(columns[i].name, columns[i].dataType))
  }

  /** What JavaScript should see of some rows of a result set. */
  function ResultOf(columns: seq<Metadata>, rows: seq<seq<Cell>>): RawResult {
    RawResult(DecodedColumns(columns), KeptRows(rows), |rows|, 0)
  }

  function ResultsOf(sets: seq<ResultSet>): (r: seq<RawResult>)
    ensures |r| == |sets|
  {
    if sets == [] then [] else [ResultOf(sets[0].columns, sets[0].rows)] + ResultsOf(sets[1..])
  }

  lemma {:induction false} ResultsOfSnoc(sets: seq<ResultSet>, s: ResultSet)
    ensures ResultsOf(sets + [s]) == ResultsOf(sets) + [ResultOf(s.columns, s.rows)]
  {
    if sets == [] {
      assert sets + [s] == [s] && [s][1..] == [];
    } else {
      assert (sets + [s])[1..] == sets[1..] + [s];
      ResultsOfSnoc(sets[1..], s);
    }
  }

  lemma ResultsOfNext(sets: seq<ResultSet>, n: nat)
    requires n < |sets|
    ensures ResultsOf(sets[..n + 1]) == ResultsOf(sets[..n]) + [ResultOf(sets[n].columns, sets[n].rows)]
  {
    assert sets[..n + 1] == sets[..n] + [sets[n]];
    ResultsOfSnoc(sets[..n], sets[n]);
  }

  lemma Shift(read: seq<ResultSet>, first: ResultSet, rest: seq<ResultSet>)
    ensures read + ([first] + rest) == read + [first] + rest
  {
  }

  lemma ResultsOfNil(sets: seq<ResultSet>)
    ensures ResultsOf(sets[..0]) == []
  {
  }

  // The strings a result set interns

  function Texts(cells: seq<Cell>): seq<Text> {
    if cells == [] then [] else (if cells[0].Str? then [cells[0].utf8] else []) + Texts(cells[1..])
  }

  function RowTexts(rows: seq<seq<Cell>>): seq<Text> {
    if rows == [] then [] else Texts(rows[0]) + RowTexts(rows[1..])
  }

  /** Sizes fit the 16- and 32-bit fields of the format, and rows match the column list. */
  ghost predicate SetFits(s: ResultSet) {
    && |s.columns| < 0x1_0000
    && TableFits(InternAll([], Names(s.columns) + RowTexts(s.rows)))
    && RowsFit(s.rows)
    && forall r :: 0 <= r < |s.rows| ==> |s.rows[r]| == |s.columns|
  }

  ghost predicate AllFit(sets: seq<ResultSet>) {
    forall i :: 0 <= i < |sets| ==> SetFits(sets[i])
  }

  lemma FitAt(sets: seq<ResultSet>, read: seq<ResultSet>, first: ResultSet, rest: seq<ResultSet>)
    requires sets == read + ([first] + rest)
    ensures AllFit(sets) ==> SetFits(first)
  {
    assert sets[|read|] == first;
  }

  lemma {:induction false} InternAllConcat(table: seq<Text>, a: seq<Text>, b: seq<Text>)
    ensures InternAll(table, a + b) == InternAll(InternAll(table, a), b)
    decreases |a|
  {
    if a == [] {
      assert a + b == b;
    } else {
      assert (a + b)[1..] == a[1..] + b;
      InternAllConcat(Intern(table, a[0]), a[1..], b);
    }
  }

  lemma {:induction false} TextsSnoc(cells: seq<Cell>, c: Cell)
    ensures Texts(cells + [c]) == Texts(cells) + Texts([c])
  {
    if cells == [] {
      assert cells + [c] == [c];
    } else {
      assert (cells + [c])[1..] == cells[1..] + [c];
      TextsSnoc(cells[1..], c);
    }
  }

  lemma {:induction false} RowTextsSnoc(rows: seq<seq<Cell>>, row: seq<Cell>)
    ensures RowTexts(rows + [row]) == RowTexts(rows) + Texts(row)
  {
    if rows == [] {
      assert rows + [row] == [row] && [row][1..] == [];
    } else {
      assert (rows + [row])[1..] == rows[1..] + [row];
      RowTextsSnoc(rows[1..], row);
    }
  }

  lemma {:induction false} RowTextsContains(rows: seq<seq<Cell>>, from: nat, to: nat, t: Text)
    requires from <= to <= |rows|
    requires t in RowTexts(rows[from..to])
    ensures t in RowTexts(rows)
    decreases |rows|
  {
    if rows != [] {
      if from > 0 {
        assert rows[from..to] == rows[1..][from - 1..to - 1];
        RowTextsContains(rows[1..], from - 1, to - 1, t);
      } else if to > 0 && t !in Texts(rows[0]) {
        assert rows[from..to][1..] == rows[1..][0..to - 1];
        RowTextsContains(rows[1..], 0, to - 1, t);
      }
    }
  }

  ghost predicate NoDup(table: seq<Text>) {
    forall i, j :: 0 <= i < j < |table| ==> table[i] != table[j]
  }

  lemma {:induction false} InternAllElements(table: seq<Text>, names: seq<Text>, t: Text)
    ensures t in InternAll(table, names) <==> t in table || t in names
    decreases |names|
  {
    if names != [] {
      InternAllElements(Intern(table, names[0]), names[1..], t);
    }
  }

  lemma {:induction false} InternAllNoDup(table: seq<Text>, names: seq<Text>)
    requires NoDup(table)
    ensures NoDup(InternAll(table, names))
    decreases |names|
  {
    if names != [] {
      InternAllNoDup(Intern(table, names[0]), names[1..]);
    }
  }

  lemma RemoveAt(table: seq<Text>, j: nat)
    requires j < |table|
    ensures |Flatten(table)| == |Flatten(table[..j] + table[j + 1..])| + |table[j]|
  {
    assert table == table[..j] + ([table[j]] + table[j + 1..]);
    FlattenAppend(table[..j], [table[j]] + table[j + 1..]);
    FlattenAppend([table[j]], table[j + 1..]);
    FlattenSnoc([], table[j]);
    assert [] + [table[j]] == [table[j]];
    FlattenAppend(table[..j], table[j + 1..]);
  }

  /** A table of distinct strings all found in another takes no more room than it. */
  lemma {:induction false} SubTable(small: seq<Text>, large: seq<Text>)
    requires NoDup(small) && NoDup(large)
    requires forall i :: 0 <= i < |small| ==> small[i] in large
    ensures |small| <= |large| && |Flatten(small)| <= |Flatten(large)|
    decreases |small|
  {
    if small != [] {
      var n := |small| - 1;
      var j :| 0 <= j < |large| && large[j] == small[n];
      var rest := large[..j] + large[j + 1..];
      forall i | 0 <= i < n ensures small[..n][i] in rest {
        var k :| 0 <= k < |large| && large[k] == small[i];
        assert k != j;
        assert rest[if k < j then k else k - 1] == small[i];
      }
      SubTable(small[..n], rest);
      RemoveAt(large, j);
      assert small == small[..n] + [small[n]];
      FlattenSnoc(small[..n], small[n]);
    }
  }

  /** If a whole set fits, so does the string table of any stretch of its rows. */
  lemma ChunkTableFits(s: ResultSet, from: nat, to: nat)
    requires SetFits(s) && from <= to <= |s.rows|
    ensures TableFits(InternAll([], Names(s.columns) + RowTexts(s.rows[from..to])))
  {
    hide InternAll, RowTexts, DataLen, Flatten, RowsFit, Names;
    var names := Names(s.columns);
    var part, whole := names + RowTexts(s.rows[from..to]), names + RowTexts(s.rows);
    var small, large := InternAll([], part), InternAll([], whole);
    InternAllNoDup([], part);
    InternAllNoDup([], whole);
    forall i | 0 <= i < |small| ensures small[i] in large {
      InternAllElements([], part, small[i]);
      InternAllElements([], whole, small[i]);
      if small[i] in RowTexts(s.rows[from..to]) {
        RowTextsContains(s.rows, from, to, small[i]);
      }
    }
    SubTable(small, large);
    DataLenIsLength(small);
    DataLenIsLength(large);
  }

  lemma {:induction false} ColumnsOfFrom(columns: seq<Metadata>, table: seq<Text>, names: seq<nat>, n: nat)
    requires |names| == |columns| && n <= |columns|
    requires forall i :: 0 <= i < |names| ==> names[i] < |table| && table[names[i]] == columns[i].name
    ensures ColumnsOf(table, names, Types(columns), n, |columns|) == DecodedColumns(columns)[n..]
    decreases |columns| - n
  {
    if n < |columns| {
      ColumnsOfFrom(columns, table, names, n + 1);
      var ds := DecodedColumns(columns);
      assert ds[n..] == [ds[n]] + ds[n + 1..];
    }
  }

  lemma ColumnsOfInterned(columns: seq<Metadata>, table: seq<Text>, names: seq<nat>)
    requires |names| == |columns|
    requires forall i :: 0 <= i < |names| ==> names[i] < |table| && table[names[i]] == columns[i].name
    ensures ColumnsOf(table, names, Types(columns), 0, |columns|) == DecodedColumns(columns)
  {
    hide ColumnsOf, DecodedColumns, Types;
    ColumnsOfFrom(columns, table, names, 0);
    assert DecodedColumns(columns)[0..] == DecodedColumns(columns);
  }

  lemma RowsFitSlice(s: ResultSet, from: nat, to: nat)
    requires SetFits(s) && from <= to <= |s.rows|
    ensures RowsFit(s.rows[from..to])
    ensures forall r :: 0 <= r < |s.rows[from..to]| ==> |s.rows[from..to][r]| == |s.columns|
  {
  }

  /** The client's cursor over the results of one batch. */
  class TdsClient {
    var pending: seq<Statement>
    /** The row set the cursor is on, and the row it reads next. */
    var current: Option<ResultSet>
    var nextRow: nat

    ghost predicate Valid()
      reads this
    {
      current.Some? ==> nextRow <= |current.value.rows|
    }

    /** Sends the batch and stops at its first statement. */
    constructor (batch: seq<Statement>)
      ensures Valid() && current == None && pending == batch
    {
      pending, current, nextRow := batch, None, 0;
    }

    method Advance() returns (r: StatementResult)
      requires Valid()
      modifies this
      ensures Valid()
      ensures old(pending) == [] ==> r == End && unchanged(this)
      ensures old(pending) != [] ==>
                && pending == old(pending)[1..]
                && match old(pending)[0]
                   case Rows(s) => r == OnRows && current == Some(s) && nextRow == 0
                   case NoRows => r == OnNoRows && current == None
    {
      if pending == [] {
        return End;
      }
      match pending[0] {
        case Rows(s) =>
          current, nextRow, r := Some(s), 0, OnRows;
        case NoRows =>
          current, r := None, OnNoRows;
      }
      pending := pending[1..];
    }

    /** Skips statements without rows. */
    method AdvanceToRows() returns (onRows: bool)
      requires Valid()
      modifies this
      ensures Valid()
      ensures onRows <==> RowSets(old(pending)) != []
      ensures onRows ==> nextRow == 0 && current.Some? && [current.value] + RowSets(pending) == RowSets(old(pending))
      ensures !onRows ==> pending == [] && RowSets(pending) == [] && (current == old(current) || current == None)
    {
      while true
        invariant Valid()
        invariant RowSets(pending) == RowSets(old(pending))
        invariant current == old(current) || current == None
        decreases |pending|
      {
        ghost var before := pending;
        var r := Advance();
        match r {
          case OnRows => return true;
          case OnNoRows =>
          case End => return false;
        }
        assert RowSets(before) == [] + RowSets(before[1..]);
      }
    }

    method NextRowInto(writer: BinaryRowWriter) returns (hadRow: bool)
      requires Valid() && writer.Valid() && writer.openRow == [] && current.Some?
      modifies this`nextRow, writer
      ensures Valid() && writer.Valid() && writer.openRow == []
      ensures hadRow <==> old(nextRow) < |current.value.rows|
      ensures !hadRow ==> unchanged(this) && unchanged(writer)
      ensures hadRow ==>
                && nextRow == old(nextRow) + 1
                && writer.rows == old(writer.rows) + [current.value.rows[old(nextRow)]]
                && writer.stringTable == InternAll(old(writer.stringTable), Texts(current.value.rows[old(nextRow)]))
                && old(writer.stringTable) <= writer.stringTable
    {
      hide InternAll, Texts, BinaryRowWriter.Valid;
      if nextRow >= |current.value.rows| {
        return false;
      }
      var row := current.value.rows[nextRow];
      InternNone(writer.stringTable);
      for i := 0 to |row|
        invariant nextRow == old(nextRow)
        invariant writer.Valid() && writer.openRow == row[..i]
        invariant writer.rows == old(writer.rows)
        invariant writer.stringTable == InternAll(old(writer.stringTable), Texts(row[..i]))
        invariant old(writer.stringTable) <= writer.stringTable
      {
        assert row[..i + 1] == row[..i] + [row[i]];
        CellInterns(old(writer.stringTable), row[..i], row[i]);
        writer.WriteCell(row[i]);
      }
      assert row[..|row|] == row;
      writer.EndRow();
      nextRow := nextRow + 1;
      return true;
    }
  }

  lemma InternNone(table: seq<Text>)
    ensures InternAll(table, Texts([])) == table
  {
  }

  lemma CellInterns(table: seq<Text>, done: seq<Cell>, c: Cell)
    ensures InternCell(InternAll(table, Texts(done)), c) == InternAll(table, Texts(done + [c]))
  {
    TextsSnoc(done, c);
    if c.Str? {
      assert [c][1..] == [];
      assert Texts([c]) == [c.utf8];
      InternAllSnoc(table, Texts(done), c.utf8);
    } else {
      assert [c][1..] == [];
      assert Texts(done) + Texts([c]) == Texts(done);
    }
  }

  /** The writer holds the given rows of `s`, and nothing else beside the column names. */
  ghost predicate Holds(writer: BinaryRowWriter, names: seq<nat>, s: ResultSet, from: nat, to: nat)
    reads writer
  {
    && writer.Valid() && writer.openRow == []
    && from <= to <= |s.rows| && writer.rows == s.rows[from..to]
    && writer.colCount == |s.columns| % 0x1_0000
    && writer.stringTable == InternAll([], Names(s.columns) + RowTexts(s.rows[from..to]))
    && |names| == |s.columns|
    && forall i :: 0 <= i < |names| ==>
         names[i] < |writer.stringTable| && writer.stringTable[names[i]] == s.columns[i].name
  }

  /** A fresh writer with the column names interned. */
  method OpenWriter(s: ResultSet, ghost from: nat) returns (writer: BinaryRowWriter, names: seq<nat>)
    requires from <= |s.rows|
    ensures fresh(writer) && Holds(writer, names, s, from, from)
  {
    writer := new BinaryRowWriter(|s.columns| % 0x1_0000);
    names := writer.InternColumnNames(Names(s.columns));
    assert s.rows[from..from] == [];
    assert Names(s.columns) + RowTexts([]) == Names(s.columns);
  }

  /** One call of `next_row_into` seen from the writer's contents. */
  method PullRow(client: TdsClient, writer: BinaryRowWriter, ghost names: seq<nat>, ghost from: nat)
    returns (hadRow: bool)
    requires client.Valid() && client.current.Some?
    requires Holds(writer, names, client.current.value, from, client.nextRow)
    modifies client`nextRow, writer
    ensures client.Valid()
    ensures hadRow <==> old(client.nextRow) < |client.current.value.rows|
    ensures client.nextRow == old(client.nextRow) + if hadRow then 1 else 0
    ensures Holds(writer, names, client.current.value, from, client.nextRow)
    ensures old(writer.stringTable) <= writer.stringTable
  {
    hide InternAll, Texts, RowTexts, Names, BinaryRowWriter.Valid;
    ghost var s, to := client.current.value, client.nextRow;
    hadRow := client.NextRowInto(writer);
    if hadRow {
      RowInterns(s, from, to);
      assert s.rows[from..to + 1] == s.rows[from..to] + [s.rows[to]];
    }
  }

  lemma RowInterns(s: ResultSet, from: nat, to: nat)
    requires from <= to < |s.rows|
    ensures InternAll(InternAll([], Names(s.columns) + RowTexts(s.rows[from..to])), Texts(s.rows[to]))
         == InternAll([], Names(s.columns) + RowTexts(s.rows[from..to + 1]))
  {
    hide InternAll, RowTexts, Names, Texts;
    assert s.rows[from..to + 1] == s.rows[from..to] + [s.rows[to]];
    RowTextsSnoc(s.rows[from..to], s.rows[to]);
    InternAllConcat([], Names(s.columns) + RowTexts(s.rows[from..to]), Texts(s.rows[to]));
    assert Names(s.columns) + RowTexts(s.rows[from..to]) + Texts(s.rows[to])
        == Names(s.columns) + RowTexts(s.rows[from..to + 1]);
  }

  /** Finalizing a writer that holds rows of a set that fits gives a buffer decoding to just those rows. */
  method FinalizeRows(writer: BinaryRowWriter, names: seq<nat>, s: ResultSet, ghost from: nat, ghost to: nat)
    returns (buf: seq<byte>)
    requires Holds(writer, names, s, from, to)
    ensures SetFits(s) ==> Decode(buf) == Ok(Parsed(ResultOf(s.columns, s.rows[from..to]), |buf|))
  {
    hide InternAll, RowTexts, Names, Decode, Layout, Types, DecodedColumns, KeptRows, RowsFit, TableFits, ColumnsOf;
    buf := writer.Finalize(names, Types(s.columns), 0);
    if SetFits(s) {
      ChunkTableFits(s, from, to);
      RowsFitSlice(s, from, to);
      ColumnsOfInterned(s.columns, writer.stringTable, names);
      assert EncodeRow([], writer.stringMap) == [];
    }
  }

  /** A row set that fits the format is decoded from the buffer whole, to its last byte. */
  ghost predicate ReadsBack(buf: seq<byte>, s: ResultSet) {
    SetFits(s) ==> Decode(buf) == Ok(Parsed(ResultOf(s.columns, s.rows), |buf|))
  }

  /** `query_raw`: every row set of the batch in a buffer of its own. */
  method QueryRaw(batch: seq<Statement>) returns (buffers: seq<seq<byte>>)
    ensures |buffers| == |RowSets(batch)|
    ensures forall i :: 0 <= i < |buffers| ==> ReadsBack(buffers[i], RowSets(batch)[i])
  {
    hide ReadsBack, RowSets;
    var client := new TdsClient(batch);
    var hasRows := client.AdvanceToRows();
    buffers := [];
    ghost var read: seq<ResultSet>, left := [], RowSets(batch);
    while hasRows
      invariant client.Valid() && fresh(client) && read + left == RowSets(batch)
      invariant hasRows ==>
                client.nextRow == 0 && client.current.Some? && left == [client.current.value] + RowSets(client.pending)
      invariant !hasRows ==> left == []
      invariant |buffers| == |read| && forall i :: 0 <= i < |buffers| ==> ReadsBack(buffers[i], read[i])
      decreases |left|
    {
      var buf := DrainSet(client);
      Shift(read, client.current.value, RowSets(client.pending));
      read, left := read + [client.current.value], RowSets(client.pending);
      buffers := buffers + [buf];
      hasRows := client.AdvanceToRows();
    }
    assert read + [] == read;
  }

  /** Reads the whole current row set into one buffer. */
  method DrainSet(client: TdsClient) returns (buf: seq<byte>)
    requires client.Valid() && client.current.Some? && client.nextRow == 0
    modifies client`nextRow
    ensures client.Valid() && ReadsBack(buf, client.current.value)
  {
    hide InternAll, RowTexts, Decode, ResultOf, SetFits, Holds;
    var s := client.current.value;
    var writer, names := OpenWriter(s, 0);
    while true
      invariant client.Valid() && client.current == Some(s) && Holds(writer, names, s, 0, client.nextRow)
      invariant fresh(writer)
      decreases |s.rows| - client.nextRow
    {
      var hadRow := PullRow(client, writer, names, 0);
      if !hadRow { break; }
    }
    assert s.rows[0..|s.rows|] == s.rows;
    buf := FinalizeRows(writer, names, s, 0, client.nextRow);
  }

  // Sizes of encoded rows; a string cell is a reference whatever its text

  function CellSize(c: Cell): nat { if c.Str? then 5 else |EncodeCell(c, map[])| }

  function RowSize(cells: seq<Cell>): nat {
    if cells == [] then 0 else CellSize(cells[0]) + RowSize(cells[1..])
  }

  function RowsSize(rows: seq<seq<Cell>>): nat {
    if rows == [] then 0 else RowSize(rows[0]) + RowsSize(rows[1..])
  }

  lemma CellSizeIs(c: Cell, index: map<Text, nat>)
    requires c.Str? ==> c.utf8 in index
    ensures |EncodeCell(c, index)| == CellSize(c)
  {
    hide Le16, Le32, Le64, Words, WordsLe;
  }

  lemma {:induction false} RowSizeIs(cells: seq<Cell>, index: map<Text, nat>)
    requires Indexed(cells, index)
    ensures |EncodeRow(cells, index)| == RowSize(cells)
  {
    hide EncodeCell, CellSize;
    if cells != [] {
      CellSizeIs(cells[0], index);
      RowSizeIs(cells[1..], index);
    }
  }

  lemma {:induction false} RowsSizeIs(rows: seq<seq<Cell>>, index: map<Text, nat>)
    requires RowsIndexed(rows, index)
    ensures |EncodeRows(rows, index)| == RowsSize(rows)
  {
    hide EncodeRow, RowSize;
    if rows != [] {
      RowSizeIs(rows[0], index);
      RowsSizeIs(rows[1..], index);
    }
  }

  lemma HeldSize(writer: BinaryRowWriter, names: seq<nat>, s: ResultSet, from: nat, to: nat)
    requires Holds(writer, names, s, from, to)
    ensures |writer.rowData| == RowsSize(s.rows[from..to])
  {
    hide RowsSize, EncodeRows;
    RowsSizeIs(writer.rows, writer.stringMap);
    assert EncodeRow([], writer.stringMap) == [];
  }

  /** `fetch_chunk`: rows of the current set until the row data reaches the budget. */
  method FetchChunk(client: TdsClient, budget: nat) returns (chunk: Option<ChunkResult>)
    requires client.Valid()
    modifies client`nextRow
    ensures client.Valid()
    ensures chunk.Some? <==> client.current.Some?
    ensures chunk.None? ==> unchanged(client)
    ensures chunk.Some? ==>
              var s := client.current.value;
              && old(client.nextRow) <= client.nextRow
              && (chunk.value.hasMore ==> old(client.nextRow) < client.nextRow)
              && (!chunk.value.hasMore ==> client.nextRow == |s.rows|)
              && (chunk.value.hasMore ==> RowsSize(s.rows[old(client.nextRow)..client.nextRow]) >= budget)
              && (forall k :: old(client.nextRow) < k <= client.nextRow - (if chunk.value.hasMore then 1 else 0) ==>
                    RowsSize(s.rows[old(client.nextRow)..k]) < budget)
              && (SetFits(s) ==>
                    Decode(chunk.value.data)
                    == Ok(Parsed(ResultOf(s.columns, s.rows[old(client.nextRow)..client.nextRow]), |chunk.value.data|)))
  {
    hide InternAll, RowTexts, Decode, ResultOf, SetFits, Holds, RowsSize;
    if client.current.None? {
      return None;
    }
    var s := client.current.value;
    ghost var from := client.nextRow;
    var writer, names := OpenWriter(s, from);
    var hasMore := false;
    while true
      invariant client.Valid() && client.current == Some(s) && Holds(writer, names, s, from, client.nextRow)
      invariant fresh(writer) && !hasMore
      invariant forall k :: from < k <= client.nextRow ==> RowsSize(s.rows[from..k]) < budget
      decreases |s.rows| - client.nextRow
    {
      var hadRow := PullRow(client, writer, names, from);
      if !hadRow { break; }
      HeldSize(writer, names, s, from, client.nextRow);
      if |writer.rowData| >= budget {
        hasMore := true;
        break;
      }
    }
    var data := FinalizeRows(writer, names, s, from, client.nextRow);
    return Some(ChunkResult(data, hasMore));
  }

  lemma {:induction false} KeptRowsAppend(a: seq<seq<Cell>>, b: seq<seq<Cell>>)
    ensures KeptRows(a + b) == KeptRows(a) + KeptRows(b)
  {
    if a == [] {
      assert a + b == b;
    } else {
      assert (a + b)[1..] == a[1..] + b;
      KeptRowsAppend(a[1..], b);
    }
  }

  function Merge(merged: RawResult, chunk: RawResult): RawResult {
    merged.(rows := merged.rows + chunk.rows, rowCount := merged.rowCount + chunk.rowCount)
  }

  lemma MergeSlices(s: ResultSet, a: nat, b: nat)
    requires a <= b <= |s.rows|
    ensures Merge(ResultOf(s.columns, s.rows[..a]), ResultOf(s.columns, s.rows[a..b]))
         == ResultOf(s.columns, s.rows[..b])
  {
    assert s.rows[..b] == s.rows[..a] + s.rows[a..b];
    KeptRowsAppend(s.rows[..a], s.rows[a..b]);
  }

  /** The inner loop of `createResultFast`: fetch, decode and merge chunks of one row set. */
  method FetchMerged(client: TdsClient, budget: nat) returns (r: Result<Option<RawResult>>)
    requires client.Valid() && (client.current.Some? ==> client.nextRow == 0)
    modifies client`nextRow
    ensures client.Valid()
    ensures client.current.None? ==> r == Ok(None)
    ensures client.current.Some? && SetFits(client.current.value) ==>
              r == Ok(Some(ResultOf(client.current.value.columns, client.current.value.rows)))
  {
    hide Decode, ResultOf, SetFits, Merge;
    var merged: Option<RawResult> := None;
    ghost var s := if client.current.Some? then client.current.value else ResultSet([], []);
    while true
      invariant client.Valid() && client.current == old(client.current)
      invariant merged.None? ==> client.current.None? || client.nextRow == 0
      invariant merged.Some? ==> client.current.Some?
      invariant merged.Some? && SetFits(s) ==> merged == Some(ResultOf(s.columns, s.rows[..client.nextRow]))
      decreases if client.current.Some? then |s.rows| - client.nextRow else 0
    {
      ghost var from := client.nextRow;
      var chunk := FetchChunk(client, budget);
      if chunk.None? { break; }
      var decoded :- DecodeRawResult(chunk.value.data);
      if merged.None? {
        merged := Some(decoded.item);
        assert s.rows[0..client.nextRow] == s.rows[..client.nextRow];
      } else {
        merged := Some(Merge(merged.value, decoded.item));
        MergeSlices(s, from, client.nextRow);
      }
      if !chunk.value.hasMore { break; }
    }
    if client.current.Some? {
      assert s.rows[..|s.rows|] == s.rows;
    }
    return Ok(merged);
  }

  /** `createResultFast`, for any byte budget, on a client positioned on its first row set. */
  method CreateResultFast(batch: seq<Statement>, budget: nat) returns (r: Result<seq<RawResult>>)
    ensures AllFit(RowSets(batch)) ==> r == Ok(ResultsOf(RowSets(batch)))
  {
    hide ResultOf, ResultsOf, SetFits, RowSets, AllFit;
    var client := new TdsClient(batch);
    var onRows := client.AdvanceToRows();
    var results: seq<RawResult> := [];
    ghost var sets, read: seq<ResultSet>, left := RowSets(batch), [], RowSets(batch);
    ResultsOfNil([]);
    while true
      invariant client.Valid() && fresh(client) && read + left == sets
      invariant client.current.Some? ==> client.nextRow == 0 && left == [client.current.value] + RowSets(client.pending)
      invariant client.current.None? ==> left == []
      invariant AllFit(sets) ==> results == ResultsOf(read)
      decreases |left|
    {
      if client.current.Some? {
        FitAt(sets, read, client.current.value, RowSets(client.pending));
      }
      var merged :- FetchMerged(client, budget);
      if merged.None? { break; }
      Shift(read, client.current.value, RowSets(client.pending));
      ResultsOfSnoc(read, client.current.value);
      read, left := read + [client.current.value], RowSets(client.pending);
      results := results + [merged.value];
      var next := client.AdvanceToRows();
      if !next { break; }
    }
    assert read + [] == read;
    return Ok(results);
  }

  /** `queryFast`: decode each buffer of `query_raw`. */
  method QueryFast(batch: seq<Statement>) returns (r: Result<seq<RawResult>>)
    ensures AllFit(RowSets(batch)) ==> r == Ok(ResultsOf(RowSets(batch)))
  {
    hide ResultOf, ResultsOf, SetFits, Decode, RowSets;
    var buffers := QueryRaw(batch);
    var results: seq<RawResult> := [];
    ghost var sets := RowSets(batch);
    ResultsOfNil(sets);
    for i := 0 to |buffers|
      invariant |results| == i
      invariant AllFit(sets) ==> results == ResultsOf(sets[..i])
    {
      var decoded :- DecodeRawResult(buffers[i]);
      ResultsOfNext(sets, i);
      results := results + [decoded.item];
    }
    assert sets[..|sets|] == sets;
    return Ok(results);
  }

  /** Cutting the row stream into chunks and merging them is invisible: both paths see the same results. */
  method PathsAgree(batch: seq<Statement>, budget: nat)
    returns (fast: Result<seq<RawResult>>, chunked: Result<seq<RawResult>>)
    ensures AllFit(RowSets(batch)) ==> fast == chunked == Ok(ResultsOf(RowSets(batch)))
  {
    fast := QueryFast(batch);
    chunked := CreateResultFast(batch, budget);
  }
}
