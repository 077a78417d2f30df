/**
  The SQL text `load_data` assembles: the CREATE TABLE statement from the
  column description, one value tuple per line of the file, and one multi-row
  INSERT per batch of lines. Values are quoted by the digit test alone and
  nothing is escaped.
 */
module Sql {
  import opened Text
  import opened Schema

  const CreatePrefix: string := "CREATE TABLE AYASDI("
  const InsertPrefix: string := "INSERT INTO AYASDI("
  const ValuesInfix: string := ") VALUES "

  // ---------------------------------------------------------------------------
  // CREATE TABLE

  /** The store type of a column: a DATE column is kept as TEXT, any other type as declared. */
  function StoreType(columnType: string): (t: string)
    ensures columnType == "DATE" ==> t == "TEXT"
    ensures columnType != "DATE" ==> t == columnType
  {
    if columnType != "DATE" then columnType else "TEXT"
  }

  /** `NOT NULL` exactly for the columns that do not allow null. */
  function NullClause(allowNull: bool): (n: string)
    ensures n == "" <==> allowNull
    ensures !allowNull ==> n == "NOT NULL"
  {
    if allowNull then "" else "NOT NULL"
  }

  /**
    One element of the `table_col` list: the name and a space come first, and
    a nullable column's definition ends in the space before its empty null clause.
   */
  function ColumnDef(c: Column): (d: string)
    ensures |d| > |c.name| && d[..|c.name| + 1] == c.name + " "
    ensures d[|d| - 1] == ' ' <==> c.allowNull
  {
    var d := c.name + " " + StoreType(c.columnType) + " " + NullClause(c.allowNull);
    assert d == (c.name + " ") + (StoreType(c.columnType) + " " + NullClause(c.allowNull));
    d
  }

  /** The `table_col` list, in schema order. */
  function ColumnDefs(schema: seq<Column>): seq<string> {
    seq(|schema|, k requires 0 <= k < |schema| => ColumnDef(schema[k]))
  }

  function CreateTableQuery(schema: seq<Column>): (q: string)
    ensures |q| > |CreatePrefix| && q[..|CreatePrefix|] == CreatePrefix && q[|q| - 1] == ')'
  {
    var body := Join(ColumnDefs(schema), ',');
    Parenthesised(CreatePrefix, body);
    CreatePrefix + body + ")"
  }

  /** A name or type with no comma and no space in it. */
  predicate IsWord(s: string) {
    ',' !in s && ' ' !in s
  }

  /** The words of a column definition: name, store type, then the null clause's words. */
  function DefinitionWords(c: Column): seq<string> {
    [c.name, StoreType(c.columnType)] + (if c.allowNull then [""] else ["NOT", "NULL"])
  }

  /** Splitting one column definition on spaces recovers its name, store type and null clause. */
  lemma ColumnDefWords(c: Column)
    requires IsWord(c.name) && IsWord(c.columnType)
    ensures Split(ColumnDef(c), ' ') == DefinitionWords(c)
  {
    var w := DefinitionWords(c);
    assert forall k :: 0 <= k < |w| ==> ' ' !in w[k];
    var st := StoreType(c.columnType);
    assert w[1..][1..] == w[2..];
    if c.allowNull {
      assert Join(w[2..], ' ') == "";
    } else {
      assert w[2..][1..] == ["NULL"];
      assert Join(w[2..], ' ') == "NOT" + " " + "NULL";
    }
    assert Join(w[1..], ' ') == st + " " + Join(w[2..], ' ');
    assert Join(w[2..], ' ') == NullClause(c.allowNull);
    assert Join(w, ' ') == c.name + " " + (st + " " + NullClause(c.allowNull));
    assert ColumnDef(c) == c.name + " " + (st + " " + NullClause(c.allowNull));
    SplitJoin(w, ' ');
  }

  /**
    Reading the CREATE TABLE statement back: between the prefix and the closing
    parenthesis, the comma-separated items are the column definitions in schema
    order.
   */
  lemma CreateTableColumns(schema: seq<Column>)
    requires |schema| >= 1
    requires forall k :: 0 <= k < |schema| ==> ',' !in schema[k].name && ',' !in schema[k].columnType
    ensures var q := CreateTableQuery(schema);
      && q[..|CreatePrefix|] == CreatePrefix
      && q[|q| - 1] == ')'
      && Split(q[|CreatePrefix|..|q| - 1], ',') == ColumnDefs(schema)
  {
    var defs := ColumnDefs(schema);
    forall k | 0 <= k < |defs|
      ensures ',' !in defs[k]
    {
      ColumnDefNoComma(schema[k]);
    }
    SplitJoin(defs, ',');
    Parenthesised(CreatePrefix, Join(defs, ','));
  }

  /** A column definition built from a comma-free name and type holds no comma. */
  lemma ColumnDefNoComma(c: Column)
    requires ',' !in c.name && ',' !in c.columnType
    ensures ',' !in ColumnDef(c)
  {
    assert ',' !in StoreType(c.columnType) && ',' !in NullClause(c.allowNull);
  }

  /** What sits between a prefix and the closing parenthesis. */
  lemma Parenthesised(prefix: string, body: string)
    ensures var q := prefix + body + ")";
      q[..|prefix|] == prefix && q[|q| - 1] == ')' && q[|prefix|..|q| - 1] == body
  {
  }

  // ---------------------------------------------------------------------------
  // Value tuples

  /** A token as it enters the VALUES list: bare when `val.isdigit()`, otherwise in single quotes. */
  function Quote(val: string): string {
    if IsDigits(val) then val else "'" + val + "'"
  }

  /** A token is left bare exactly when it is all digits; otherwise it gains two quote characters. */
  lemma QuoteBare(val: string)
    ensures Quote(val) == val <==> IsDigits(val)
    ensures !IsDigits(val) ==> |Quote(val)| == |val| + 2
  {
  }

  /** Strips one pair of surrounding single quotes, if there is one. */
  function Unquote(q: string): string {
    if |q| >= 2 && q[0] == '\'' && q[|q| - 1] == '\'' then q[1..|q| - 1] else q
  }

  /** Quoting loses nothing: the token can be recovered from its quoted form. */
  lemma QuoteRoundTrip(val: string)
    ensures Unquote(Quote(val)) == val
  {
    if IsDigits(val) {
      assert !(val[0] == '\'');
    } else {
      assert ("'" + val + "'")[1..|val| + 1] == val;
    }
  }

  function QuoteAll(vals: seq<string>): seq<string> {
    seq(|vals|, k requires 0 <= k < |vals| => Quote(vals[k]))
  }

  /** The tuple built for one line of the file. */
  function Tuple(line: string): (t: string)
    ensures |t| >= 2 && t[0] == '(' && t[|t| - 1] == ')'
  {
    "(" + Join(QuoteAll(Split(line, ',')), ',') + ")"
  }

  /**
    A tuple has one token per comma-separated field of the line, and the fields,
    unquoted and joined with commas again, are the line.
   */
  lemma TupleTokens(line: string)
    ensures var t := QuoteAll(Split(line, ','));
      && |t| == Count(line, ',') + 1
      && Join(seq(|t|, k requires 0 <= k < |t| => Unquote(t[k])), ',') == line
  {
    var vals := Split(line, ',');
    var t := QuoteAll(vals);
    SplitCount(line, ',');
    forall k | 0 <= k < |t|
      ensures Unquote(t[k]) == vals[k]
    {
      QuoteRoundTrip(vals[k]);
    }
    assert seq(|t|, k requires 0 <= k < |t| => Unquote(t[k])) == vals;
    JoinSplit(line, ',');
  }

  /** Quoting adds no comma, so the commas of a tuple are exactly its separators. */
  lemma QuoteAllNoComma(vals: seq<string>)
    requires forall k :: 0 <= k < |vals| ==> ',' !in vals[k]
    ensures forall k :: 0 <= k < |vals| ==> ',' !in QuoteAll(vals)[k]
  {
    forall k | 0 <= k < |vals|
      ensures ',' !in QuoteAll(vals)[k]
    {
      assert ',' !in "'" + vals[k] + "'";
    }
  }

  /**
    Different lines never give the same tuple: the commas of the tuple separate
    the tokens and each token can be unquoted, so the line can be read back.
   */
  lemma TupleInjective(line: string, line': string)
    requires Tuple(line) == Tuple(line')
    ensures line == line'
  {
    var t, t' := QuoteAll(Split(line, ',')), QuoteAll(Split(line', ','));
    var j, j' := Join(t, ','), Join(t', ',');
    assert j == Tuple(line)[1..|Tuple(line)| - 1];
    assert j' == Tuple(line')[1..|Tuple(line')| - 1];
    QuoteAllNoComma(Split(line, ','));
    QuoteAllNoComma(Split(line', ','));
    SplitJoin(t, ',');
    SplitJoin(t', ',');
    TupleTokens(line);
    TupleTokens(line');
  }

  /**
    The tuple of a line the csv writer produced from `fields` (no commas inside
    them), read back with its line terminator: one token per field, quoted by the
    digit test, except that the last field carries the terminator and is
    therefore always quoted.
   */
  lemma TupleOfCsvLine(fields: seq<string>)
    requires |fields| >= 1
    requires forall k :: 0 <= k < |fields| ==> ',' !in fields[k]
    ensures var n := |fields|;
      var read := fields[..n - 1] + [fields[n - 1] + "\n"];
      && Tuple(Join(fields, ',') + "\n") == "(" + Join(QuoteAll(read), ',') + ")"
      && QuoteAll(read)[n - 1] == "'" + (fields[n - 1] + "\n") + "'"
  {
    var n := |fields|;
    var read := fields[..n - 1] + [fields[n - 1] + "\n"];
    JoinExtendLast(fields, "\n", ',');
    ReadNoComma(fields);
    SplitJoin(read, ',');
    NewlineNotDigits(fields[n - 1]);
  }

  /** The fields as read back, the last one with its terminator, still hold no comma. */
  lemma ReadNoComma(fields: seq<string>)
    requires |fields| >= 1
    requires forall k :: 0 <= k < |fields| ==> ',' !in fields[k]
    ensures var read := fields[..|fields| - 1] + [fields[|fields| - 1] + "\n"];
      forall k :: 0 <= k < |read| ==> ',' !in read[k]
  {
    var n := |fields|;
    var read := fields[..n - 1] + [fields[n - 1] + "\n"];
    assert forall k :: 0 <= k < n - 1 ==> read[k] == fields[k];
    assert ',' !in fields[n - 1] + "\n";
  }

  /** A field ending in a line terminator is not all digits. */
  lemma NewlineNotDigits(s: string)
    ensures !IsDigits(s + "\n")
  {
    assert (s + "\n")[|s|] == '\n';
  }

  /**
    `row_data` before its final comma is replaced: the opening parenthesis,
    then each field quoted by the digit test and followed by a comma.
   */
  function OpenTuple(vals: seq<string>): string {
    if |vals| == 0 then "(" else OpenTuple(vals[..|vals| - 1]) + Quote(vals[|vals| - 1]) + ","
  }

  /** Quoting a prefix of the fields gives the same prefix of the tokens. */
  lemma QuoteAllSnoc(vals: seq<string>)
    requires |vals| >= 1
    ensures QuoteAll(vals) == QuoteAll(vals[..|vals| - 1]) + [Quote(vals[|vals| - 1])]
  {
  }

  lemma {:induction false} OpenTupleJoin(vals: seq<string>)
    requires |vals| >= 1
    ensures OpenTuple(vals) == "(" + Join(QuoteAll(vals), ',') + ","
  {
    var n := |vals|;
    if n == 1 {
      assert vals[..0] == [];
    } else {
      var init := vals[..n - 1];
      var q := Quote(vals[n - 1]);
      OpenTupleJoin(init);
      QuoteAllSnoc(vals);
      JoinSnoc(QuoteAll(init), q, ',');
      TupleRebracket("(", Join(QuoteAll(init), ','), q);
    }
  }

  /** `(a + j + ",") + q + ","` read as `a + (j + "," + q) + ","`. */
  lemma TupleRebracket(a: string, j: string, q: string)
    ensures a + j + "," + q + "," == a + (j + [','] + q) + ","
  {
  }

  /** One pass of the token loop: the field, quoted by the digit test, then a comma. */
  lemma OpenTupleStep(vals: seq<string>, k: nat)
    requires k < |vals|
    ensures OpenTuple(vals[..k + 1]) == OpenTuple(vals[..k]) + Quote(vals[k]) + ","
  {
    assert vals[..k + 1][..k] == vals[..k];
  }

  /** Replacing the final comma of the open tuple by `)` closes it. */
  lemma CloseTuple(line: string)
    ensures var t := OpenTuple(Split(line, ','));
      |t| >= 2 && t[..|t| - 1] + ")" == Tuple(line)
  {
    var vals := Split(line, ',');
    OpenTupleJoin(vals);
    var joined := Join(QuoteAll(vals), ',');
    var t := OpenTuple(vals);
    assert t[..|t| - 1] == "(" + joined;
  }

  /** The inner loop of `load_data`: builds `row_data` for one line token by token. */
  method BuildRowTuple(line: string) returns (rowData: string)
    ensures rowData == Tuple(line)
  {
    var vals := Split(line, ',');
    rowData := "(";
    for k := 0 to |vals|
      invariant rowData == OpenTuple(vals[..k])
    {
      OpenTupleStep(vals, k);
      var val := vals[k];
      if IsDigits(val) {
        rowData := rowData + val;
      } else {
        rowData := rowData + "'" + val + "'";
      }
      rowData := rowData + ",";
    }
    assert vals[..|vals|] == vals;
    CloseTuple(line);
    rowData := rowData[..|rowData| - 1] + ")";
  }

  // ---------------------------------------------------------------------------
  // INSERT

  /** The tuples of a batch of lines, in order. */
  function Tuples(lines: seq<string>): (ts: seq<string>)
    ensures |ts| == |lines|
  {
    seq(|lines|, k requires 0 <= k < |lines| => Tuple(lines[k]))
  }

  /** The INSERT for one batch, under the column list `columns` taken from the header line. */
  function InsertQuery(columns: string, lines: seq<string>): (q: string)
    ensures |q| >= |InsertPrefix| + |columns| + |ValuesInfix|
    ensures q[..|InsertPrefix| + |columns|] == InsertPrefix + columns
    ensures q[|InsertPrefix| + |columns|..] == ValuesInfix + Join(Tuples(lines), ',')
  {
    var q := InsertPrefix + columns + ValuesInfix + Join(Tuples(lines), ',');
    assert q == (InsertPrefix + columns) + (ValuesInfix + Join(Tuples(lines), ','));
    q
  }

  /** No `)` of `s` is directly followed by a comma. */
  predicate NoCloseComma(s: string) {
    forall k :: 0 <= k < |s| - 1 ==> !(s[k] == ')' && s[k + 1] == ',')
  }

  /** A closed piece ends in `)` and holds no `),`, as every tuple does. */
  predicate Closed(t: string) {
    |t| > 0 && t[|t| - 1] == ')' && NoCloseComma(t)
  }

  /**
    In a comma-join of non-empty, comma-free pieces none of which ends in `)`,
    every comma follows a character other than `)`.
   */
  lemma {:induction false} JoinCommaFollows(xs: seq<string>)
    requires forall i :: 0 <= i < |xs| ==> |xs[i]| > 0 && ',' !in xs[i] && xs[i][|xs[i]| - 1] != ')'
    ensures forall k :: 0 <= k < |Join(xs, ',')| ==> Join(xs, ',')[k] == ',' ==>
      k > 0 && Join(xs, ',')[k - 1] != ')'
    decreases |xs|
  {
    if |xs| > 0 {
      var j := Join(xs, ',');
      var n := |xs[0]|;
      JoinHead(xs, ',');
      if |xs| > 1 {
        var r := Join(xs[1..], ',');
        JoinCommaFollows(xs[1..]);
        forall k | 0 <= k < |j|
          ensures j[k] == ',' ==> k > 0 && j[k - 1] != ')'
        {
          if k < n {
            assert j[k] == xs[0][k];
          } else if k == n {
            assert j[k - 1] == xs[0][n - 1];
          } else if k == n + 1 {
            assert j[k] == r[0];
          } else {
            assert j[k] == r[k - n - 1] && j[k - 1] == r[k - n - 2];
          }
        }
      } else {
        forall k | 0 <= k < |j|
          ensures j[k] != ','
        {
          assert j[k] == xs[0][k];
        }
      }
    } else {
      assert Join(xs, ',') == "";
    }
  }

  /** Every tuple is closed: its commas follow a digit or a quote, never `)`. */
  lemma TupleClosed(line: string)
    ensures Closed(Tuple(line))
  {
    var vals := Split(line, ',');
    var toks := QuoteAll(vals);
    var j := Join(toks, ',');
    var t := Tuple(line);
    QuoteAllNoComma(vals);
    forall i | 0 <= i < |toks|
      ensures |toks[i]| > 0 && toks[i][|toks[i]| - 1] != ')'
    {
      if IsDigits(vals[i]) {
        assert toks[i] == vals[i] && IsDigit(vals[i][|vals[i]| - 1]);
      } else {
        assert toks[i] == "'" + vals[i] + "'";
      }
    }
    JoinCommaFollows(toks);
    assert t == "(" + j + ")";
    forall k | 0 <= k < |t| - 1
      ensures !(t[k] == ')' && t[k + 1] == ',')
    {
      if k + 1 < |t| - 1 {
        assert t[k + 1] == j[k];
        if j[k] == ',' {
          assert k > 0 && j[k - 1] != ')';
          assert t[k] == j[k - 1];
        }
      }
    }
  }

  /** A closed piece opening `j`, followed there by a comma, leaves a `),` in any longer prefix of `j`. */
  lemma LongerPrefixCloseComma(a: string, a': string, j: string)
    requires Closed(a)
    requires |a| <= |j| && j[..|a|] == a && (|a| == |j| || j[|a|] == ',')
    requires |a'| <= |j| && j[..|a'|] == a'
    ensures |a| < |a'| ==> !NoCloseComma(a')
  {
    if |a| < |a'| {
      assert a'[|a| - 1] == a[|a| - 1] && a'[|a|] == j[|a|];
    }
  }

  /** Of two closed pieces that each open `j` and end at a comma or at its end, neither is longer. */
  lemma FirstPieceDetermined(a: string, a': string, j: string)
    requires Closed(a) && Closed(a')
    requires |a| <= |j| && j[..|a|] == a && (|a| == |j| || j[|a|] == ',')
    requires |a'| <= |j| && j[..|a'|] == a' && (|a'| == |j| || j[|a'|] == ',')
    ensures a == a'
  {
    LongerPrefixCloseComma(a, a', j);
    LongerPrefixCloseComma(a', a, j);
  }

  /** A comma-join of closed pieces can be undone: the pieces are the ones joined. */
  lemma {:induction false} JoinClosedInjective(ts: seq<string>, ts': seq<string>)
    requires forall i :: 0 <= i < |ts| ==> Closed(ts[i])
    requires forall i :: 0 <= i < |ts'| ==> Closed(ts'[i])
    requires Join(ts, ',') == Join(ts', ',')
    ensures ts == ts'
    decreases |ts|
  {
    var j := Join(ts, ',');
    if |ts| == 0 {
      if |ts'| > 0 {
        JoinHead(ts', ',');
      }
    } else if |ts'| == 0 {
      JoinHead(ts, ',');
    } else {
      JoinHead(ts, ',');
      JoinHead(ts', ',');
      FirstPieceDetermined(ts[0], ts'[0], j);
      if |ts| > 1 && |ts'| > 1 {
        JoinClosedInjective(ts[1..], ts'[1..]);
        assert ts == [ts[0]] + ts[1..] && ts' == [ts'[0]] + ts'[1..];
      }
    }
  }

  /**
    The INSERT text determines the batch: the tuples are cut apart at the
    commas that follow `)`, and each tuple determines its line.
   */
  lemma InsertQueryInjective(columns: string, lines: seq<string>, lines': seq<string>)
    requires InsertQuery(columns, lines) == InsertQuery(columns, lines')
    ensures lines == lines'
  {
    var q := InsertQuery(columns, lines);
    var ts, ts' := Tuples(lines), Tuples(lines');
    var m := |InsertPrefix| + |columns|;
    assert Join(ts, ',') == q[m..][|ValuesInfix|..] == Join(ts', ',');
    forall i | 0 <= i < |ts|
      ensures Closed(ts[i])
    {
      TupleClosed(lines[i]);
    }
    forall i | 0 <= i < |ts'|
      ensures Closed(ts'[i])
    {
      TupleClosed(lines'[i]);
    }
    JoinClosedInjective(ts, ts');
    forall k | 0 <= k < |lines|
      ensures lines[k] == lines'[k]
    {
      assert ts[k] == ts'[k];
      TupleInjective(lines[k], lines'[k]);
    }
  }

  /** One pass of the chunk loop of `load_data`: a tuple per line, joined into one INSERT. */
  method BuildInsertQuery(columns: string, csvData: seq<string>) returns (query: string)
    ensures query == InsertQuery(columns, csvData)
  {
    var queryData := [];
    for d := 0 to |csvData|
      invariant queryData == Tuples(csvData[..d])
    {
      var rowData := BuildRowTuple(csvData[d]);
      queryData := queryData + [rowData];
    }
    assert csvData[..|csvData|] == csvData;
    query := InsertPrefix + columns + ValuesInfix + Join(queryData, ',');
  }
}
