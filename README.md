# Synthetic table loader, modelled in Dafny

The program under study, `ayasdi_python_code.py`, does three things:

- It generates synthetic rows for a table described by `columns_meta`, an ordered dictionary from column name to type (`INTEGER`, `TEXT` or `DATE`) and a null flag.
- It writes those rows to a csv file in batches of 10000.
- It reads the file back in chunks of 1000 lines and loads it into SQLite with a `CREATE TABLE AYASDI(...)` statement and one multi-row `INSERT` per chunk.

This project models the deterministic core of that program and proves what it produces.

- **Values** (`values.dfy`):
  - `get_data` picks a value by column type and null flag.
  - Its three random draws arrive as a `Draws` value whose type carries the ranges the random module guarantees: a day offset in `[0, 365)`, five ASCII letters, and an integer in `[1000, 2000]`.
  - Dates are formatted as `strftime("%Y-%m-%d %H:%M:%S")` over the 2014 calendar.
  - The values are rendered as csv fields.
- **Schema** (`schema.dfy`): the column dictionary in insertion order, and the positions of the value columns. These are every column but `col1`, which the row builder skips wherever it sits in the dictionary. Every row starts with its id `str(i)` instead, so the row has one field per column only when `col1` is one of them.
- **Batching** (`batching.dfy`): cutting a sequence into consecutive batches of a fixed size, as the `islice` loop of `get_csv_data` does.
- **SQL text** (`sql.dfy`):
  - the column definitions and the CREATE TABLE statement;
  - the value tuple built for one line, where a token is bare exactly when `isdigit()` holds and otherwise single-quoted;
  - the INSERT statement for a batch of lines.
- **The loader** (`loader.dfy`):
  - The class `DataLoader` holds the file name, the schema and the row count.
  - `PrepareCsv` returns the rows the csv writer received, plus the buffer the loop leaves behind.
  - `GetCsvData` returns the chunks of the file's lines.
  - `LoadData` returns the CREATE TABLE statement, the INSERT statements in execution order, and the final counter `i`.
  - Each is proved equal to a specification function. The lemmas beside them state what those functions guarantee.
  - The inner loops live in separate methods (`BuildRow`, `LoadChunk`, `BuildInsertQuery`, `BuildRowTuple`), each proved against its own specification function.

The file between writing and reading is modelled by what passes through it:

- Writing: the rows of strings handed to `writerow`/`writerows`.
- Reading: the lines read back in text mode, each joined with `,` and ending in `"\n"`. The csv writer ends rows with `"\r\n"`, and universal-newline reading turns that into `"\n"`.

Two consequences of the code are worth stating on their own:

- **The last buffer is never written.** `prepare_csv` writes only when `i % 10000 == 0` (lines 75-77). It never writes what is left in `rows_data` after the loop. So only rows `1 .. totalRows - totalRows % 10000` reach the file; with 3 rows, only the header does. `Loader.WrittenRows` and the `rowsData` result of `PrepareCsv` state this.
- **An empty INSERT.** With only a header line in the file, `load_data` builds one INSERT with an empty VALUES list (lines 111-127).

## Model

| member | source | states |
|---|---|---|
| Text.Join | ayasdi_python_code.py:103 | `",".join`: the pieces with one separator between neighbours; `SplitJoin` and `JoinSplit` prove it inverse to `Split` |
| Text.IsDigits | ayasdi_python_code.py:118 | `isdigit()` on ASCII text: non-empty and every character a decimal digit; `QuoteBare` ties the quoting to it |
| Text.Split | ayasdi_python_code.py:117 | `str.split(',')` gives at least one piece, and no piece contains the separator |
| Text.SplitCount | ayasdi_python_code.py:117 | splitting gives exactly one more piece than there are separators in the line |
| Text.JoinSplit | ayasdi_python_code.py:117 | joining the pieces of a split with the same separator gives back the original line |
| Text.SplitJoin | ayasdi_python_code.py:103 | splitting a `",".join` recovers the joined pieces when none of them contains a comma |
| Text.NatToString | ayasdi_python_code.py:68 | `str(i)` of a row index is a non-empty string of decimal digits, so `isdigit()` holds for it |
| Text.ParseNatToString | ayasdi_python_code.py:68 | `int(str(i)) == i`: the decimal rendering loses nothing |
| Text.NatToStringInjective | ayasdi_python_code.py:68 | distinct row indices have distinct ids `str(i)` |
| Text.Pad2 | ayasdi_python_code.py:23-24 | the two-digit month or day field of the date format is two digits that read back as the number |
| Values.GetData | ayasdi_python_code.py:13-30 | no value exactly when the type is not DATE and either `is_null` is set or the type is neither TEXT nor INTEGER (DATE ignores `is_null`); a value has the column's type, five ASCII letters for TEXT and 1000..2000 for INTEGER |
| Values.MonthOf | ayasdi_python_code.py:22-24 | the month of a day in the one-year window is between 1 and 12 |
| Values.DayOfMonth | ayasdi_python_code.py:22-24 | the day of the month of a day in the window is between 1 and 31 |
| Values.CalendarRoundTrip | ayasdi_python_code.py:22-24 | every offset 0..364 from 2014-01-01 is a valid 2014 date, and converting that date back gives the offset |
| Values.CalendarRoundTripBack | ayasdi_python_code.py:22-24 | every valid 2014 date is an offset inside the window, and converting it forth gives the same month and day |
| Values.DateString | ayasdi_python_code.py:22-24 | a formatted date is 19 characters long |
| Values.DateStringRoundTrip | ayasdi_python_code.py:22-24 | the formatted date is `2014-mm-dd 00:00:00`, with dashes at positions 4 and 7 and two-digit month and day fields, and reading month and day back gives the day offset drawn |
| Values.DateStringCsvSafe | ayasdi_python_code.py:22-24 | a formatted date has no comma, quote or line break, and is never all digits |
| Values.Render | ayasdi_python_code.py:63-76 | the csv field of a cell: empty for a missing value, the decimal for an integer, the text or formatted date otherwise; `RenderGenerated` proves it needs no quoting |
| Values.RenderGenerated | ayasdi_python_code.py:20-30 | every generated value is written as a csv field needing no quoting, and that field is all digits exactly when the value is an INTEGER |
| Values.RenderRowId | ayasdi_python_code.py:68 | the row id field needs no quoting and is all digits |
| Schema.Names | ayasdi_python_code.py:61 | `columns_meta.keys()`, the header row, in dictionary order; `WrittenRows` places it first in the file |
| Schema.ValueColumns | ayasdi_python_code.py:69-70 | the positions of the columns the row builder visits all lie inside the schema |
| Schema.ValueColumnsExact | ayasdi_python_code.py:69-70 | the visited columns are exactly the ones named other than `col1`, each once, in dictionary order |
| Batching.Chunked | ayasdi_python_code.py:86-90 | the `islice` loop: consecutive runs of 1000 until the input is used up; `ChunkedFlatten`, `ChunkedSizes` and `ChunkedCount` state what it guarantees |
| Batching.ChunkedFlatten | ayasdi_python_code.py:86-90 | the chunks, laid end to end, are the file's lines in order: nothing lost, duplicated or reordered |
| Batching.ChunkedSizes | ayasdi_python_code.py:86-90 | every chunk is non-empty and holds at most 1000 lines, and every chunk but the last holds exactly 1000 |
| Batching.ChunkedCount | ayasdi_python_code.py:86-90 | the number of chunks is the least number of 1000-line chunks that hold the file |
| Sql.StoreType | ayasdi_python_code.py:100 | a DATE column is stored as TEXT, and every other type as declared |
| Sql.NullClause | ayasdi_python_code.py:101 | the null clause is empty exactly when the column allows null, and is `NOT NULL` when it does not |
| Sql.ColumnDef | ayasdi_python_code.py:100-102 | a column definition starts with the column name and a space, and ends in a space exactly when the column allows null (the empty null clause) |
| Sql.ColumnDefWords | ayasdi_python_code.py:100-102 | a column definition splits on spaces into the name, the store type and the null clause's words |
| Sql.ColumnDefs | ayasdi_python_code.py:100-102 | `table_col`: one definition per column, in dictionary order; `CreateTableColumns` reads them back from the statement |
| Sql.CreateTableQuery | ayasdi_python_code.py:103 | the CREATE TABLE statement starts with `CREATE TABLE AYASDI(` and ends with `)` |
| Sql.CreateTableColumns | ayasdi_python_code.py:100-103 | when no column name or type contains a comma, the CREATE TABLE statement is the prefix, then the column definitions in dictionary order separated by commas, then `)` |
| Sql.Quote | ayasdi_python_code.py:118-121 | the token of one field: the field itself when `isdigit()` holds, and otherwise the field in single quotes; `QuoteBare` and `QuoteRoundTrip` state its properties |
| Sql.QuoteBare | ayasdi_python_code.py:118-121 | a token is left bare exactly when `isdigit()` holds for it; otherwise it gains two quote characters |
| Sql.QuoteRoundTrip | ayasdi_python_code.py:118-121 | stripping one pair of surrounding quotes recovers the field from its token |
| Sql.Tuple | ayasdi_python_code.py:116-123 | the tuple of a line opens with `(` and closes with `)` |
| Sql.TupleTokens | ayasdi_python_code.py:116-123 | a tuple has one token per comma-separated field, and the unquoted tokens rejoined with commas are the line |
| Sql.TupleInjective | ayasdi_python_code.py:116-123 | different lines never produce the same tuple |
| Sql.TupleOfCsvLine | ayasdi_python_code.py:115-123 | for a written row, the tuple has one token per field, and the last field, which still carries the line terminator, is always quoted |
| Sql.OpenTupleJoin | ayasdi_python_code.py:116-122 | after the token loop, `row_data` is `(`, then the tokens joined with commas, then a trailing comma |
| Sql.CloseTuple | ayasdi_python_code.py:123 | replacing the trailing comma with `)` gives the tuple of the line |
| Sql.BuildRowTuple | ayasdi_python_code.py:116-123 | the row-tuple loop builds exactly the tuple of the line |
| Sql.Tuples | ayasdi_python_code.py:114-124 | `query_data`: one tuple per line of the chunk, in order; `BuildInsertQuery` proves the loop builds it |
| Sql.InsertQuery | ayasdi_python_code.py:125-127 | an INSERT is `INSERT INTO AYASDI(`, the column list, `) VALUES `, then the tuples of the lines joined with commas |
| Sql.TupleClosed | ayasdi_python_code.py:116-123 | a tuple ends in `)` and never holds `)` followed by a comma, since every comma inside it follows a digit or a quote |
| Sql.InsertQueryInjective | ayasdi_python_code.py:114-127 | the INSERT text determines its batch: two batches giving the same INSERT under the same column list are the same lines |
| Sql.BuildInsertQuery | ayasdi_python_code.py:114-127 | the chunk's INSERT is the prefix, the column list, ` VALUES ` and the lines' tuples in order, comma-separated |
| Loader.Cell | ayasdi_python_code.py:71-72 | the cell of row `i` in column `j` follows the null rule: with `i % 10 == 0` only a DATE column holds a value, otherwise exactly DATE, TEXT and INTEGER columns do, and a value has the column's type and the generator's bounds |
| Loader.Cells | ayasdi_python_code.py:69-73 | a row gets one cell per column other than `col1` |
| Loader.MakeRow | ayasdi_python_code.py:67-73 | row `i` is one field longer than the list of value columns, and its first field is the id `str(i)` |
| Loader.CellsLayout | ayasdi_python_code.py:69-73 | the cell at each place is `get_data` for the column at the matching position, with that row's null flag |
| Loader.RowLayout | ayasdi_python_code.py:67-74 | row `i` is `str(i)` followed by one `get_data` value per non-`col1` column, in dictionary order, and covers every such column |
| Loader.RowNulls | ayasdi_python_code.py:69-73 | in a row whose index is a multiple of 10 only DATE cells hold a value; in other rows exactly the DATE, TEXT and INTEGER cells do; present values are of the column's type and within the generator's bounds |
| Loader.RowsBetween | ayasdi_python_code.py:66-77 | rows `lo + 1` to `hi` in order, the contents of the `rows_data` buffer; `PrepareCsv`'s `rowsData` ensures and `WrittenRows` state which ones are written |
| Loader.RenderRow | ayasdi_python_code.py:76 | the fields the csv writer writes for one buffered row, one per cell; `RenderGenerated` and `RenderRowId` show none needs quoting |
| Loader.RenderRows | ayasdi_python_code.py:76 | the rows `writerows` writes, one rendered row per buffered row; `TupleOfRow` states what each becomes once loaded |
| Loader.FlushStep | ayasdi_python_code.py:75 | after row `i` the flushed prefix grows to `i` exactly when `i` is a multiple of 10000, and stays the same otherwise |
| Loader.PrepareStep | ayasdi_python_code.py:74-77 | one pass of the row loop writes the pending buffer and empties it exactly when `i % 10000 == 0`, and otherwise only buffers the row |
| Loader.WrittenFile | ayasdi_python_code.py:61-77 | the file the writer receives: the header, then the rendered rows up to the last multiple of 10000; `WrittenRows` states its shape |
| Loader.WrittenRows | ayasdi_python_code.py:61-77 | the file is the header, then rows 1 up to the last multiple of 10000, each starting with its own index and no index twice; rows after that multiple are lost, and with fewer than 10000 rows only the header is written |
| Loader.CsvLine | ayasdi_python_code.py:62-64 | a written row read back is a non-empty line ending in `"\n"` |
| Loader.FileLines | ayasdi_python_code.py:109 | the lines of the file read back in text mode, one per written row; `LoadAfterPrepare` relates them to what was written |
| Loader.Batches | ayasdi_python_code.py:108-113 | the data lines of each INSERT: the first chunk without its header, then each later chunk; `BatchesCover` states that they cover the data lines once, in order |
| Loader.InsertQueries | ayasdi_python_code.py:108-127 | one INSERT per batch, under the header line as column list; `ChunkBatchCount` and `LoadData` tie it to the loop |
| Loader.BatchesCover | ayasdi_python_code.py:108-113 | every line after the header goes into exactly one INSERT, in file order; there is one INSERT per chunk, the first with fewer than 1000 tuples and each later one with 1 to 1000 |
| Loader.LoadAfterPrepare | ayasdi_python_code.py:56-127 | the lines inserted are exactly the rows written, in order, and the INSERT column list is the header line with its terminator |
| Loader.TupleOfRow | ayasdi_python_code.py:115-123 | in a written row's tuple, the id and INTEGER cells are bare, TEXT, DATE and empty cells are quoted, and the last cell is quoted whatever it is |
| Loader.ChunkBatch | ayasdi_python_code.py:110-113 | the first chunk begins with the header line; before any later chunk at least 1000 lines have been read, so the counter is no longer zero there; the batch of INSERT `c` is the first chunk without its header when `c` is 0, and chunk `c` otherwise |
| Loader.ChunkBatchCount | ayasdi_python_code.py:110 | there is one INSERT per chunk |
| Loader.DataLoader.constructor | ayasdi_python_code.py:51-54 | the loader keeps the file name, the schema and the row count it is given |
| Loader.DataLoader.BuildRow | ayasdi_python_code.py:68-73 | the inner loop builds row `i` as `MakeRow` specifies |
| Loader.DataLoader.PrepareCsv | ayasdi_python_code.py:56-77 | the writer receives the file that `WrittenRows` describes, the buffer ends holding the unwritten tail, and the flushes happen at the multiples of 10000 |
| Loader.DataLoader.GetCsvData | ayasdi_python_code.py:80-90 | the chunks are the lines cut into consecutive runs of 1000 |
| Loader.DataLoader.LoadChunk | ayasdi_python_code.py:110-127 | one chunk pass pops the header only on the first chunk, keeps the counter equal to the data lines seen, and builds that chunk's INSERT |
| Loader.DataLoader.LoadData | ayasdi_python_code.py:92-129 | builds the CREATE TABLE statement for the schema and the INSERTs the batches specify, in order; the final `i` is the number of data lines |

## Left out

- The SQLite connection and the `SqlLite` context manager (lines 33-44) are not modelled. Neither are `execute`, `commit`, or the `OperationalError` that line 106 swallows. The model stops at the statement text.
- File opening, writing and reading are not modelled. `PrepareCsv` returns what the writer received, and `LoadData` takes the file's lines as a parameter.
- Randomness is a parameter. `randrange`, `choices` and `randint` become the `Draws` given per row and column. The model proves facts for every draw within range, and says nothing about distributions.
- Loader.DataLoader.constructor: the row count is a `nat`. A negative `total_rows` makes `range(1, total_rows + 1)` empty, so only the header is written, just as for 0; the model represents any negative count by 0.
- Loader.DataLoader.PrepareCsv: line 69 iterates the module-level `columns_meta`, not `self.columns_meta`. The model uses the loader's own schema, which is the same dictionary when the program runs from its `__main__` block.
- Loader.DataLoader.GetCsvData: `get_csv_data` is a lazy generator. The model returns all chunks at once. The order and contents are the same, but the interleaving with reading is not modelled.
- Text.IsDigits: Python's `isdigit()` also accepts non-ASCII digits, such as superscripts. The model recognises only `0`-`9`. The header is popped at line 112 before any digit test. Every field of a row that `prepare_csv` writes is ASCII, so for such files the difference never shows. For other lines given to `LoadData`, a data field made of non-ASCII digits would be left bare by Python and quoted by the model.
- Values.Render: the csv writer would quote a field containing a comma, quote or line break, and would write a row with a single empty field as `""`. The model writes fields verbatim. Generated values and row ids never need quoting (`RenderGenerated`, `RenderRowId`), and a row always starts with its non-empty id. A column name that needs quoting is not modelled.
- Values.DateString: `strftime` is replaced by the 2014 calendar (not a leap year), which is all the one-year window needs. Time zones and locale are not involved.
- Line 1 starts with a stray `cd` before the module docstring, so the file as written does not parse. The model treats line 1 as the start of the docstring.
- The `__main__` block (lines 132-159) is not modelled beyond the schema shape it passes in. It holds one concrete schema, a row count of 1000000 and a final message.
