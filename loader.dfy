/**
  `DataLoader`: writes the synthetic rows to the csv file in batches of 10000,
  reads the file back in chunks of 1000 lines and assembles the CREATE TABLE and
  INSERT statements. The file is modelled by what passes through it: the rows
  handed to the csv writer, and the lines read back in text mode (each ending
  in "\n"). Executing the statements is left to the store and not modelled.
 */
module Loader {
  import opened Text
  import opened Values
  import opened Schema
  import opened Batching
  import opened Sql

  /** Rows held in memory before `writerows` flushes them. */
  const RowBatchCount: nat := 10000
  /** Lines taken from the file per `islice`. */
  const ChunkSize: nat := 1000
  /** Every row whose index is a multiple of this is generated with `is_null` set. */
  const NullEvery: nat := 10

  /** A row as the writer receives it: the id `str(i)` and then one cell per value column. */
  type Row = seq<Option<Value>>

  /** The random draws for the cell of row `i` in schema position `j`. */
  type DrawSource = (nat, nat) -> Draws

  // ---------------------------------------------------------------------------
  // Rows

  function RowId(i: nat): Option<Value> {
    Some(Str(NatToString(i)))
  }

  /** The value `get_data` gives row `i` in schema position `j`. */
  function Cell(schema: seq<Column>, i: nat, draws: DrawSource, j: nat): (cell: Option<Value>)
    requires j < |schema|
    ensures NullRule(cell, schema[j].columnType, i)
  {
    GetData(schema[j].columnType, i % NullEvery == 0, draws(i, j))
  }

  /** The cells row `i` gets from the first `n` columns: one per column other than `col1`. */
  function Cells(schema: seq<Column>, i: nat, draws: DrawSource, n: nat): (cells: seq<Option<Value>>)
    requires n <= |schema|
    ensures |cells| == |ValueColumns(schema, n)|
  {
    if n == 0 then []
    else
      Cells(schema, i, draws, n - 1)
      + (if schema[n - 1].name != KeyColumn then [Cell(schema, i, draws, n - 1)] else [])
  }

  /** `_data` for row `i`. */
  function MakeRow(schema: seq<Column>, i: nat, draws: DrawSource): (row: Row)
    ensures |row| == 1 + |ValueColumns(schema, |schema|)| && row[0] == Some(Str(NatToString(i)))
  {
    [RowId(i)] + Cells(schema, i, draws, |schema|)
  }

  lemma {:induction false} CellsLayout(schema: seq<Column>, i: nat, draws: DrawSource, n: nat)
    requires n <= |schema|
    ensures forall m :: 0 <= m < |ValueColumns(schema, n)| ==>
      Cells(schema, i, draws, n)[m] == Cell(schema, i, draws, ValueColumns(schema, n)[m])
  {
    if n > 0 {
      CellsLayout(schema, i, draws, n - 1);
      var p, p' := ValueColumns(schema, n), ValueColumns(schema, n - 1);
      var cells, cells' := Cells(schema, i, draws, n), Cells(schema, i, draws, n - 1);
      if schema[n - 1].name != KeyColumn {
        assert p == p' + [n - 1];
        assert cells == cells' + [Cell(schema, i, draws, n - 1)];
        forall m | 0 <= m < |p|
          ensures cells[m] == Cell(schema, i, draws, p[m])
        {
          if m < |p'| {
            assert cells[m] == cells'[m] && p[m] == p'[m];
          }
        }
      } else {
        assert p == p' && cells == cells';
      }
    }
  }

  /**
    Row `i` is `str(i)` followed by exactly one value per column other than
    `col1`, in schema order, each drawn for that column's type with the null
    flag `i % 10 == 0`.
   */
  lemma RowLayout(schema: seq<Column>, i: nat, draws: DrawSource)
    ensures var p := ValueColumns(schema, |schema|);
      var row := MakeRow(schema, i, draws);
      && |row| == 1 + |p|
      && row[0] == Some(Str(NatToString(i)))
      && (forall m :: 0 <= m < |p| ==>
            p[m] < |schema| && row[1 + m] == Cell(schema, i, draws, p[m]))
      && (forall m, m' :: 0 <= m < m' < |p| ==> p[m] < p[m'])
      && (forall j :: 0 <= j < |schema| && schema[j].name != KeyColumn ==> j in p)
  {
    RowCells(schema, i, draws);
    ValueColumnsExact(schema, |schema|);
  }

  /** Position `1 + m` of row `i` holds the cell drawn for the `m`-th value column. */
  lemma RowCells(schema: seq<Column>, i: nat, draws: DrawSource)
    ensures forall m :: 0 <= m < |ValueColumns(schema, |schema|)| ==>
      MakeRow(schema, i, draws)[1 + m] == Cell(schema, i, draws, ValueColumns(schema, |schema|)[m])
  {
    var p := ValueColumns(schema, |schema|);
    var cells := Cells(schema, i, draws, |schema|);
    var row := MakeRow(schema, i, draws);
    CellsLayout(schema, i, draws, |schema|);
    assert row[1..] == cells;
    forall m | 0 <= m < |p|
      ensures row[1 + m] == Cell(schema, i, draws, p[m])
    {
      assert row[1 + m] == row[1..][m];
    }
  }

  /**
    The null rule for one cell of row `i` in a column of type `t`: in a row whose
    index is a multiple of 10 only a DATE column holds a value; in any other row
    exactly the DATE, TEXT and INTEGER columns do. A value present is of the
    column's type and keeps the generator's bounds.
   */
  predicate NullRule(cell: Option<Value>, t: string, i: nat) {
    && (i % NullEvery == 0 ==> (cell.Some? <==> t == "DATE"))
    && (i % NullEvery != 0 ==> (cell.Some? <==> t in {"DATE", "TEXT", "INTEGER"}))
    && (cell.Some? ==> Generated(cell.value) && TypeName(cell.value) == t)
  }

  /** Every value cell of every row follows the null rule of its column. */
  lemma RowNulls(schema: seq<Column>, i: nat, draws: DrawSource)
    ensures var p := ValueColumns(schema, |schema|);
      var row := MakeRow(schema, i, draws);
      forall m :: 0 <= m < |p| ==> NullRule(row[1 + m], schema[p[m]].columnType, i)
  {
    RowLayout(schema, i, draws);
    var p := ValueColumns(schema, |schema|);
    var row := MakeRow(schema, i, draws);
    forall m | 0 <= m < |p|
      ensures NullRule(row[1 + m], schema[p[m]].columnType, i)
    {
      assert row[1 + m] == Cell(schema, i, draws, p[m]);
    }
  }

  /** Rows `lo + 1` to `hi`, in order. */
  function RowsBetween(schema: seq<Column>, draws: DrawSource, lo: nat, hi: nat): seq<Row>
    requires lo <= hi
  {
    seq(hi - lo, k requires 0 <= k < hi - lo => MakeRow(schema, lo + 1 + k, draws))
  }

  lemma RowsBetweenSplit(schema: seq<Column>, draws: DrawSource, lo: nat, mid: nat, hi: nat)
    requires lo <= mid <= hi
    ensures RowsBetween(schema, draws, lo, mid) + RowsBetween(schema, draws, mid, hi)
         == RowsBetween(schema, draws, lo, hi)
  {
  }

  lemma RowsBetweenSnoc(schema: seq<Column>, draws: DrawSource, lo: nat, hi: nat)
    requires lo <= hi
    ensures RowsBetween(schema, draws, lo, hi) + [MakeRow(schema, hi + 1, draws)] == RowsBetween(schema, draws, lo, hi + 1)
  {
  }

  /** What `writerow` passes on for a row: `None` as an empty field, other values as `str`. */
  function RenderRow(row: Row): seq<string> {
    seq(|row|, k requires 0 <= k < |row| => Render(row[k]))
  }

  function RenderRows(rows: seq<Row>): seq<seq<string>> {
    seq(|rows|, k requires 0 <= k < |rows| => RenderRow(rows[k]))
  }

  lemma RenderRowsAppend(a: seq<Row>, b: seq<Row>)
    ensures RenderRows(a + b) == RenderRows(a) + RenderRows(b)
  {
  }

  /** How many of the first `n` rows have been written: those up to the last multiple of 10000. */
  function Flushed(n: nat): nat {
    n - n % RowBatchCount
  }

  lemma FlushStep(i: nat)
    requires i >= 1
    ensures i % RowBatchCount == 0 ==> Flushed(i) == i && i / RowBatchCount == (i - 1) / RowBatchCount + 1
    ensures i % RowBatchCount != 0 ==> Flushed(i) == Flushed(i - 1) && i / RowBatchCount == (i - 1) / RowBatchCount
  {
    var q, r := (i - 1) / RowBatchCount, (i - 1) % RowBatchCount;
    assert i == q * RowBatchCount + r + 1;
    if r + 1 == RowBatchCount {
      assert i == (q + 1) * RowBatchCount;
    }
  }

  /** Flushes: the values of `i` at which the buffer has been written, after row `n`. */
  function FlushPoints(n: nat): seq<nat> {
    seq(n / RowBatchCount, k requires 0 <= k < n / RowBatchCount => RowBatchCount * (k + 1))
  }

  /** One turn of the row loop: the buffer after row `i` is flushed exactly when `i` is a multiple of 10000. */
  lemma PrepareStep(schema: seq<Column>, draws: DrawSource, i: nat)
    requires i >= 1
    ensures var pending := RowsBetween(schema, draws, Flushed(i - 1), i);
      && (i % RowBatchCount == 0 ==>
            && WrittenFile(schema, draws, i) == WrittenFile(schema, draws, i - 1) + RenderRows(pending)
            && RowsBetween(schema, draws, Flushed(i), i) == []
            && FlushPoints(i) == FlushPoints(i - 1) + [i])
      && (i % RowBatchCount != 0 ==>
            && WrittenFile(schema, draws, i) == WrittenFile(schema, draws, i - 1)
            && RowsBetween(schema, draws, Flushed(i), i) == pending
            && FlushPoints(i) == FlushPoints(i - 1))
  {
    FlushStep(i);
    if i % RowBatchCount == 0 {
      var before := RowsBetween(schema, draws, 0, Flushed(i - 1));
      var pending := RowsBetween(schema, draws, Flushed(i - 1), i);
      RowsBetweenSplit(schema, draws, 0, Flushed(i - 1), i);
      RenderRowsAppend(before, pending);
      assert [Names(schema)] + RenderRows(before + pending)
          == [Names(schema)] + RenderRows(before) + RenderRows(pending);
    }
  }

  /** The rows the csv writer has received once `prepare_csv` returns. */
  function WrittenFile(schema: seq<Column>, draws: DrawSource, totalRows: nat): seq<seq<string>> {
    [Names(schema)] + RenderRows(RowsBetween(schema, draws, 0, Flushed(totalRows)))
  }

  /**
    What reaches the file: the header, then rows 1 to the last multiple of 10000
    in order, each starting with its own index, no index twice. The rows after
    that multiple are never written; with fewer than 10000 rows only the header is.
   */
  lemma {:induction false} WrittenRows(schema: seq<Column>, draws: DrawSource, totalRows: nat)
    ensures var file := WrittenFile(schema, draws, totalRows);
      && |file| == 1 + Flushed(totalRows)
      && Flushed(totalRows) % RowBatchCount == 0
      && Flushed(totalRows) <= totalRows < Flushed(totalRows) + RowBatchCount
      && (totalRows < RowBatchCount ==> file == [Names(schema)])
      && (forall k :: 1 <= k < |file| ==> |file[k]| >= 1 && file[k][0] == NatToString(k))
      && (forall a, b :: 1 <= a < b < |file| ==> file[a][0] != file[b][0])
  {
    var file := WrittenFile(schema, draws, totalRows);
    forall k | 1 <= k < |file|
      ensures |file[k]| >= 1 && file[k][0] == NatToString(k)
    {
      assert file[k] == RenderRow(MakeRow(schema, k, draws));
    }
    forall a, b | 1 <= a < b < |file|
      ensures file[a][0] != file[b][0]
    {
      NatToStringInjective(a, b);
    }
  }

  // ---------------------------------------------------------------------------
  // Reading back

  /** One line of the file as text-mode reading yields it. */
  function CsvLine(fields: seq<string>): (line: string)
    ensures |line| > 0 && line[|line| - 1] == '\n'
  {
    Join(fields, ',') + "\n"
  }

  function FileLines(file: seq<seq<string>>): seq<string> {
    seq(|file|, k requires 0 <= k < |file| => CsvLine(file[k]))
  }

  /** The data lines of each INSERT: the chunks of 1000 lines, with the header dropped from the first. */
  function Batches(lines: seq<string>): seq<seq<string>> {
    if |lines| == 0 then []
    else
      var m := Min(ChunkSize, |lines|);
      [lines[1..m]] + Chunked(lines[m..], ChunkSize)
  }

  /** The INSERT statements of `load_data`, one per chunk, under the header line as column list. */
  function InsertQueries(lines: seq<string>): seq<string> {
    if |lines| == 0 then []
    else
      var b := Batches(lines);
      seq(|b|, k requires 0 <= k < |b| => InsertQuery(lines[0], b[k]))
  }

  /**
    Every line after the header is inserted exactly once and in file order;
    there is one INSERT per chunk, each with at most 1000 tuples (999 in the
    first, which gave up the header line), and every INSERT after the first has
    at least one.
   */
  lemma BatchesCover(lines: seq<string>)
    requires |lines| >= 1
    ensures var b := Batches(lines);
      && Flatten(b) == lines[1..]
      && |b| == |Chunked(lines, ChunkSize)|
      && |b[0]| < ChunkSize
      && (forall k :: 1 <= k < |b| ==> 0 < |b[k]| <= ChunkSize)
  {
    var m := Min(ChunkSize, |lines|);
    var rest := Chunked(lines[m..], ChunkSize);
    ChunkedFlatten(lines[m..], ChunkSize);
    ChunkedSizes(lines[m..], ChunkSize);
    var b := Batches(lines);
    assert b == [lines[1..m]] + rest;
    assert Chunked(lines, ChunkSize) == [lines[..m]] + rest;
    assert b[1..] == rest;
    assert Flatten(b) == lines[1..m] + Flatten(rest);
    assert lines[1..] == lines[1..m] + lines[m..];
    forall k | 1 <= k < |b|
      ensures 0 < |b[k]| <= ChunkSize
    {
      assert b[k] == rest[k - 1];
    }
  }

  /**
    End to end: the lines `load_data` inserts are exactly the rows
    `prepare_csv` wrote, in order, and the INSERT column list is the header
    line with its line terminator still attached.
   */
  lemma LoadAfterPrepare(schema: seq<Column>, draws: DrawSource, totalRows: nat)
    ensures var file := WrittenFile(schema, draws, totalRows);
      var lines := FileLines(file);
      && lines[0] == Join(Names(schema), ',') + "\n"
      && Flatten(Batches(lines))
         == seq(Flushed(totalRows), k requires 0 <= k < Flushed(totalRows) =>
                  CsvLine(RenderRow(MakeRow(schema, k + 1, draws))))
  {
    var file := WrittenFile(schema, draws, totalRows);
    var lines := FileLines(file);
    BatchesCover(lines);
  }

  /**
    The tuple of a written row: the id goes in bare, an INTEGER value bare, every
    other cell (TEXT, DATE, or an empty field) in single quotes, and the last
    cell in quotes whatever it is, since it still carries the line terminator.
   */
  lemma TupleOfRow(schema: seq<Column>, i: nat, draws: DrawSource)
    ensures var row := MakeRow(schema, i, draws);
      var fields := RenderRow(row);
      var n := |fields|;
      var tokens := QuoteAll(fields[..n - 1] + [fields[n - 1] + "\n"]);
      && Tuple(CsvLine(fields)) == "(" + Join(tokens, ',') + ")"
      && |tokens| == |row|
      && (forall m :: 0 <= m < n - 1 ==>
            tokens[m] == if m == 0 || (row[m].Some? && row[m].value.Int?) then fields[m] else "'" + fields[m] + "'")
      && tokens[n - 1] == "'" + (fields[n - 1] + "\n") + "'"
  {
    var row := MakeRow(schema, i, draws);
    var fields := RenderRow(row);
    var n := |fields|;
    RowLayout(schema, i, draws);
    RowNulls(schema, i, draws);
    RenderRowId(i);
    forall m | 1 <= m < n
      ensures CsvSafe(fields[m])
      ensures IsDigits(fields[m]) <==> row[m].Some? && row[m].value.Int?
    {
      assert NullRule(row[1 + (m - 1)], schema[ValueColumns(schema, |schema|)[m - 1]].columnType, i);
      if row[m].Some? {
        RenderGenerated(row[m].value);
      }
    }
    TupleOfCsvLine(fields);
  }

  // ---------------------------------------------------------------------------
  // The loader

  class DataLoader {
    const fileName: string
    const columnsMeta: seq<Column>
    const totalRows: nat

    constructor (name: string, columnsData: seq<Column>, totalRows: nat)
      ensures fileName == name && columnsMeta == columnsData && this.totalRows == totalRows
    {
      fileName := name;
      columnsMeta := columnsData;
      this.totalRows := totalRows;
    }

    /** The inner loop of `prepare_csv`: the row id, then one cell per value column. */
    method BuildRow(draws: DrawSource, i: nat) returns (data: Row)
      ensures data == MakeRow(columnsMeta, i, draws)
    {
      data := [RowId(i)];
      for j := 0 to |columnsMeta|
        invariant data == [RowId(i)] + Cells(columnsMeta, i, draws, j)
      {
        var column := columnsMeta[j];
        if column.name != KeyColumn {
          var isNull := i % NullEvery == 0;
          var colVal := GetData(column.columnType, isNull, draws(i, j));
          assert colVal == Cell(columnsMeta, i, draws, j);
          data := data + [colVal];
        }
      }
    }

    /**
      `prepare_csv`: returns the rows handed to the csv writer (the header, then
      each flushed batch) and the buffer `rows_data` as the loop leaves it. The
      buffer is flushed exactly when `i` is a multiple of 10000 (`flushes` lists
      those `i`), and what is left in it at the end is never written.
     */
    method PrepareCsv(draws: DrawSource) returns (written: seq<seq<string>>, rowsData: seq<Row>, ghost flushes: seq<nat>)
      ensures written == WrittenFile(columnsMeta, draws, totalRows)
      ensures rowsData == RowsBetween(columnsMeta, draws, Flushed(totalRows), totalRows)
      ensures flushes == FlushPoints(totalRows)
    {
      written := [Names(columnsMeta)];
      rowsData := [];
      flushes := [];
      for i := 1 to totalRows + 1
        invariant written == WrittenFile(columnsMeta, draws, i - 1)
        invariant rowsData == RowsBetween(columnsMeta, draws, Flushed(i - 1), i - 1)
        invariant flushes == FlushPoints(i - 1)
      {
        var data := BuildRow(draws, i);
        RowsBetweenSnoc(columnsMeta, draws, Flushed(i - 1), i - 1);
        rowsData := rowsData + [data];
        PrepareStep(columnsMeta, draws, i);
        if i % RowBatchCount == 0 {
          written := written + RenderRows(rowsData);
          rowsData := [];
          flushes := flushes + [i];
        }
      }
    }

    /** `get_csv_data`: the lines of the file in consecutive chunks of 1000, the last one shorter. */
    static method GetCsvData(lines: seq<string>) returns (chunks: seq<seq<string>>)
      ensures chunks == Chunked(lines, ChunkSize)
    {
      chunks := [];
      var rest := lines;
      while true
        invariant chunks + Chunked(rest, ChunkSize) == Chunked(lines, ChunkSize)
        decreases |rest|
      {
        var data := rest[..Min(ChunkSize, |rest|)];
        if data == [] {
          break;
        }
        assert Chunked(rest, ChunkSize) == [data] + Chunked(rest[|data|..], ChunkSize);
        rest := rest[|data|..];
        chunks := chunks + [data];
      }
    }

    /** One pass of the chunk loop of `load_data`: pops the header on the first chunk and builds that chunk's INSERT. */
    static method LoadChunk(lines: seq<string>, chunks: seq<seq<string>>, c: nat, columns: string, i: nat)
      returns (columns': string, i': nat, query: string)
      requires chunks == Chunked(lines, ChunkSize) && c < |chunks|
      requires c == 0 ==> i == 0
      requires c > 0 ==> columns == lines[0] && i + 1 == |Flatten(chunks[..c])|
      ensures columns' == lines[0] && i' + 1 == |Flatten(chunks[..c + 1])|
      ensures query == InsertQueries(lines)[c]
    {
      ChunkBatch(lines, c);
      var csvData := chunks[c];
      columns' := columns;
      if i == 0 {
        columns' := csvData[0];
        csvData := csvData[1..];
      }
      i' := i + |csvData|;
      query := BuildInsertQuery(columns', csvData);
      FlattenPrefixStep(chunks, c);
    }

    /**
      `load_data` on the lines of the file: the CREATE TABLE statement, the
      INSERT statements in the order they are executed, and the final value of
      the counter `i`, the number of data lines.
     */
    method LoadData(lines: seq<string>) returns (createTableQuery: string, queries: seq<string>, i: nat)
      ensures createTableQuery == CreateTableQuery(columnsMeta)
      ensures queries == InsertQueries(lines)
      ensures i == if |lines| == 0 then 0 else |lines| - 1
    {
      var tableCol := ColumnDefs(columnsMeta);
      createTableQuery := CreatePrefix + Join(tableCol, ',') + ")";
      i := 0;
      var columns := "";
      var chunks := GetCsvData(lines);
      queries := [];
      ghost var all := InsertQueries(lines);
      ChunkBatchCount(lines);
      var c := 0;
      while c < |chunks|
        invariant 0 <= c <= |chunks|
        invariant c == 0 ==> i == 0
        invariant c > 0 ==> columns == lines[0] && i + 1 == |Flatten(chunks[..c])|
        invariant queries == all[..c]
      {
        var query;
        columns, i, query := LoadChunk(lines, chunks, c, columns, i);
        assert all[..c + 1] == all[..c] + [query];
        queries := queries + [query];
        c := c + 1;
      }
      ChunkedFlatten(lines, ChunkSize);
      assert chunks[..c] == chunks;
      assert all[..c] == all;
    }
  }

  lemma FlattenPrefixStep<T>(xss: seq<seq<T>>, c: nat)
    requires c < |xss|
    ensures |Flatten(xss[..c + 1])| == |Flatten(xss[..c])| + |xss[c]|
  {
    FlattenAppend(xss[..c], [xss[c]]);
    assert xss[..c + 1] == xss[..c] + [xss[c]];
    assert [xss[c]][1..] == [];
  }

  lemma ChunkBatchCount(lines: seq<string>)
    ensures |InsertQueries(lines)| == |Chunked(lines, ChunkSize)|
  {
    if |lines| > 0 {
      BatchesCover(lines);
    }
  }

  /**
    The state of the load loop at chunk `c`: the counter is zero exactly at the
    first chunk, whose first line is the header, and the lines left after
    popping it there are the batch of the `c`-th INSERT.
   */
  lemma ChunkBatch(lines: seq<string>, c: nat)
    requires c < |Chunked(lines, ChunkSize)|
    ensures var chunks := Chunked(lines, ChunkSize);
      && |lines| > 0
      && |chunks[0]| > 0 && chunks[0][0] == lines[0]
      && (c > 0 ==> |Flatten(chunks[..c])| >= ChunkSize)
      && |InsertQueries(lines)| == |chunks|
      && InsertQueries(lines)[c]
         == InsertQuery(lines[0], if c == 0 then chunks[0][1..] else chunks[c])
  {
    var chunks := Chunked(lines, ChunkSize);
    ChunkedSizes(lines, ChunkSize);
    BatchesCover(lines);
    if c > 0 {
      assert chunks[..c] == [chunks[0]] + chunks[1..c];
    }
  }
}
