/**
  The column description `columns_meta`: an insertion-ordered dictionary from
  column name to its declared type and whether it may be null.
 */
module Schema {

  /** One entry of the dictionary: the key, `value["TYPE"]` and `value["ALLOW_NULL"]`. */
  datatype Column = Column(name: string, columnType: string, allowNull: bool)

  /** The key the row builder skips: the row id `str(i)` stands in its place. */
  const KeyColumn: string := "col1"

  /** `columns_meta.keys()`, in insertion order. */
  function Names(schema: seq<Column>): seq<string> {
    seq(|schema|, k requires 0 <= k < |schema| => schema[k].name)
  }

  /** Positions, among the first `n` columns, of those other than `col1`, in schema order. */
  function ValueColumns(schema: seq<Column>, n: nat): (p: seq<nat>)
    requires n <= |schema|
    ensures forall m :: 0 <= m < |p| ==> p[m] < n
  {
    if n == 0 then []
    else ValueColumns(schema, n - 1) + (if schema[n - 1].name != KeyColumn then [n - 1] else [])
  }

  /**
    `ValueColumns` lists every column other than `col1` exactly once, in
    increasing schema position, and nothing else.
   */
  lemma ValueColumnsExact(schema: seq<Column>, n: nat)
    requires n <= |schema|
    ensures var p := ValueColumns(schema, n);
      && (forall m :: 0 <= m < |p| ==> p[m] < n && schema[p[m]].name != KeyColumn)
      && (forall m, m' :: 0 <= m < m' < |p| ==> p[m] < p[m'])
      && (forall j :: 0 <= j < n && schema[j].name != KeyColumn ==> j in p)
  {
    ValueColumnsSkipKey(schema, n);
    ValueColumnsIncreasing(schema, n);
    ValueColumnsComplete(schema, n);
  }

  lemma {:induction false} ValueColumnsSkipKey(schema: seq<Column>, n: nat)
    requires n <= |schema|
    ensures forall m :: 0 <= m < |ValueColumns(schema, n)| ==> schema[ValueColumns(schema, n)[m]].name != KeyColumn
  {
    if n > 0 {
      ValueColumnsSkipKey(schema, n - 1);
      var prev := ValueColumns(schema, n - 1);
      if schema[n - 1].name != KeyColumn {
        var p := prev + [n - 1];
        assert ValueColumns(schema, n) == p;
        forall m | 0 <= m < |p|
          ensures schema[p[m]].name != KeyColumn
        {
          if m < |prev| {
            assert p[m] == prev[m];
          } else {
            assert p[m] == n - 1;
          }
        }
      } else {
        assert ValueColumns(schema, n) == prev + [];
        assert prev + [] == prev;
      }
    }
  }

  lemma {:induction false} ValueColumnsIncreasing(schema: seq<Column>, n: nat)
    requires n <= |schema|
    ensures forall m, m' :: 0 <= m < m' < |ValueColumns(schema, n)| ==> ValueColumns(schema, n)[m] < ValueColumns(schema, n)[m']
  {
    if n > 0 {
      ValueColumnsIncreasing(schema, n - 1);
      var prev := ValueColumns(schema, n - 1);
      if schema[n - 1].name != KeyColumn {
        var p := prev + [n - 1];
        assert ValueColumns(schema, n) == p;
        forall m, m' | 0 <= m < m' < |p|
          ensures p[m] < p[m']
        {
          assert p[m] == prev[m];
          if m' < |prev| {
            assert p[m'] == prev[m'];
          } else {
            assert p[m'] == n - 1;
          }
        }
      } else {
        assert ValueColumns(schema, n) == prev + [];
        assert prev + [] == prev;
      }
    }
  }

  lemma {:induction false} ValueColumnsComplete(schema: seq<Column>, n: nat)
    requires n <= |schema|
    ensures forall j :: 0 <= j < n && schema[j].name != KeyColumn ==> j in ValueColumns(schema, n)
  {
    if n > 0 {
      ValueColumnsComplete(schema, n - 1);
    }
  }
}
