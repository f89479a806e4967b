/**
 * How `getDatabaseSchema` turns the rows of its introspection query into the schema
 * snapshot: one column entry per row, pushed onto the array of the row's table, the
 * array created the first time the table is seen.
 */
module SchemaBuilder {
  import opened Wrappers
  import opened OrderedDict
  import opened SchemaModel

  /** One row of the introspection query, with the columns the grouping reads. */
  datatype SchemaRow = SchemaRow(
    tableName: string,
    columnName: string,
    dataType: string,
    isNullable: string,             // `is_nullable`, the text `information_schema` gives
    columnDefault: Option<string>,  // `column_default`, `None` for SQL NULL
    isPrimaryKey: bool,
    isForeignKey: bool)

  /** The column entry a row contributes. */
  function ToColumn(row: SchemaRow): (c: ColumnInfo)
    ensures c.nullable <==> row.isNullable == "YES"
    ensures c.name == row.columnName && c.dataType == row.dataType && c.defaultValue == row.columnDefault
    ensures c.isPrimaryKey == row.isPrimaryKey && c.isForeignKey == row.isForeignKey
  {
    ColumnInfo(row.columnName, row.dataType, row.isNullable == "YES", row.columnDefault,
      row.isPrimaryKey, row.isForeignKey)
  }

  /** One pass of the `forEach`: the row's column goes last in the array of its table. */
  function AddRow(schema: Schema, row: SchemaRow): (r: Schema)
    requires DistinctKeys(schema)
    ensures DistinctKeys(r)
  {
    Put(schema, row.tableName, Get(schema, row.tableName).GetOr([]) + [ToColumn(row)])
  }

  /** The schema after the `forEach` has handled `rows`, one row after another. */
  function Grouped(rows: seq<SchemaRow>): (schema: Schema)
    ensures DistinctKeys(schema)
    decreases |rows|
  {
    if rows == [] then [] else AddRow(Grouped(rows[..|rows| - 1]), rows[|rows| - 1])
  }

  // ----- Independent descriptions of the result -----

  /** The table names of `rows`, each once, in the order of their first row. */
  function TablesOf(rows: seq<SchemaRow>): seq<string>
    decreases |rows|
  {
    if rows == [] then []
    else
      var tables, t := TablesOf(rows[..|rows| - 1]), rows[|rows| - 1].tableName;
      if t in tables then tables else tables + [t]
  }

  /** The column entries of the rows of table `t`, in row order. */
  function ColumnsOf(rows: seq<SchemaRow>, t: string): seq<ColumnInfo>
    decreases |rows|
  {
    if rows == [] then []
    else
      var last := rows[|rows| - 1];
      ColumnsOf(rows[..|rows| - 1], t) + (if last.tableName == t then [ToColumn(last)] else [])
  }

  /** Some row belongs to table `t`. */
  predicate HasTable(rows: seq<SchemaRow>, t: string)
  {
    exists i :: 0 <= i < |rows| && rows[i].tableName == t
  }

  /** A row of table `t` comes before every row of table `u`. */
  predicate FirstSeenBefore(rows: seq<SchemaRow>, t: string, u: string)
  {
    exists i :: 0 <= i < |rows| && rows[i].tableName == t
      && forall j :: 0 <= j < |rows| && rows[j].tableName == u ==> i < j
  }

  /** The number of column entries the schema holds. */
  function Count(schema: Schema): nat
    decreases |schema|
  {
    if schema == [] then 0 else Count(schema[..|schema| - 1]) + |schema[|schema| - 1].1|
  }

  // ----- What the grouping promises -----

  /**
   * The tables are the table names of the rows, each listed once, in the order in which
   * their first rows come.
   */
  lemma {:induction false} TablesOfSpec(rows: seq<SchemaRow>)
    ensures forall t :: t in TablesOf(rows) <==> HasTable(rows, t)
    ensures forall a, b :: 0 <= a < b < |TablesOf(rows)| ==> TablesOf(rows)[a] != TablesOf(rows)[b]
    ensures forall a, b :: 0 <= a < b < |TablesOf(rows)| ==> FirstSeenBefore(rows, TablesOf(rows)[a], TablesOf(rows)[b])
    decreases |rows|
  {
    if rows != [] {
      var prefix, last := rows[..|rows| - 1], rows[|rows| - 1];
      TablesOfSpec(prefix);
      var before, after := TablesOf(prefix), TablesOf(rows);
      forall t ensures HasTable(rows, t) <==> HasTable(prefix, t) || t == last.tableName {
        if HasTable(rows, t) && t != last.tableName {
          var i :| 0 <= i < |rows| && rows[i].tableName == t;
          assert prefix[i] == rows[i];
        }
        if HasTable(prefix, t) {
          var i :| 0 <= i < |prefix| && prefix[i].tableName == t;
          assert rows[i] == prefix[i];
        }
      }
      forall a, b | 0 <= a < b < |after| ensures FirstSeenBefore(rows, after[a], after[b]) {
        if b < |before| {
          FirstSeenExtends(rows, before[a], before[b]);
        } else {
          FirstSeenNewTable(rows, before[a]);
        }
      }
    }
  }

  /** An order between two tables seen in the rows but the last one survives the last row. */
  lemma FirstSeenExtends(rows: seq<SchemaRow>, t: string, u: string)
    requires rows != [] && FirstSeenBefore(rows[..|rows| - 1], t, u)
    ensures FirstSeenBefore(rows, t, u)
  {
    var prefix := rows[..|rows| - 1];
    var i :| 0 <= i < |prefix| && prefix[i].tableName == t
      && forall j :: 0 <= j < |prefix| && prefix[j].tableName == u ==> i < j;
    assert rows[i] == prefix[i];
    forall j | 0 <= j < |rows| && rows[j].tableName == u ensures i < j {
      if j < |prefix| {
        assert prefix[j] == rows[j];
      }
    }
  }

  /** A table seen before the last row comes before the table that only the last row has. */
  lemma FirstSeenNewTable(rows: seq<SchemaRow>, t: string)
    requires rows != [] && HasTable(rows[..|rows| - 1], t)
    requires !HasTable(rows[..|rows| - 1], rows[|rows| - 1].tableName)
    ensures FirstSeenBefore(rows, t, rows[|rows| - 1].tableName)
  {
    var prefix := rows[..|rows| - 1];
    var i :| 0 <= i < |prefix| && prefix[i].tableName == t;
    assert rows[i] == prefix[i];
    assert forall j :: 0 <= j < |prefix| ==> prefix[j] == rows[j];
  }

  /** A row changes the array of its own table only, by appending its column. */
  lemma AddRowLookup(schema: Schema, row: SchemaRow, t: string)
    requires DistinctKeys(schema)
    ensures Get(AddRow(schema, row), t) ==
      if row.tableName == t then Some(Get(schema, t).GetOr([]) + [ToColumn(row)]) else Get(schema, t)
  {
  }

  /** `schema[t]`: the column entries of the rows of table `t`, or `undefined` without any. */
  lemma {:induction false} GroupedLookup(rows: seq<SchemaRow>, t: string)
    ensures Get(Grouped(rows), t) == if ColumnsOf(rows, t) == [] then None else Some(ColumnsOf(rows, t))
    decreases |rows|
  {
    if rows != [] {
      var prefix, last := rows[..|rows| - 1], rows[|rows| - 1];
      GroupedLookup(prefix, t);
      var before := Grouped(prefix);
      AddRowLookup(before, last, t);
      assert Grouped(rows) == AddRow(before, last);
      assert Get(before, t).GetOr([]) == ColumnsOf(prefix, t);
      if last.tableName == t {
        assert ColumnsOf(rows, t) == ColumnsOf(prefix, t) + [ToColumn(last)];
      } else {
        assert ColumnsOf(rows, t) == ColumnsOf(prefix, t) + [];
        assert ColumnsOf(rows, t) == ColumnsOf(prefix, t);
        assert Get(Grouped(rows), t) == Get(before, t);
      }
    }
  }

  /** A table has column entries exactly when some row belongs to it. */
  lemma {:induction false} ColumnsOfEmptyIff(rows: seq<SchemaRow>, t: string)
    ensures ColumnsOf(rows, t) == [] <==> !HasTable(rows, t)
    decreases |rows|
  {
    if rows != [] {
      var prefix := rows[..|rows| - 1];
      ColumnsOfEmptyIff(prefix, t);
      if HasTable(prefix, t) {
        var i :| 0 <= i < |prefix| && prefix[i].tableName == t;
        assert rows[i] == prefix[i];
      }
      if HasTable(rows, t) && rows[|rows| - 1].tableName != t {
        var i :| 0 <= i < |rows| && rows[i].tableName == t;
        assert prefix[i] == rows[i];
      }
    }
  }

  /** `Object.keys(schema)`: the tables in the order of their first rows. */
  lemma {:induction false} GroupedKeys(rows: seq<SchemaRow>)
    ensures Keys(Grouped(rows)) == TablesOf(rows)
    decreases |rows|
  {
    if rows != [] {
      var prefix, last := rows[..|rows| - 1], rows[|rows| - 1];
      GroupedKeys(prefix);
    }
  }

  /** Assigning a key changes the count by the difference of the old and the new array. */
  lemma {:induction false} CountUpdate(schema: Schema, i: nat, entry: (string, seq<ColumnInfo>))
    requires i < |schema|
    ensures Count(schema[i := entry]) + |schema[i].1| == Count(schema) + |entry.1|
    decreases |schema|
  {
    var n := |schema| - 1;
    if i < n {
      assert schema[i := entry][..n] == schema[..n][i := entry];
      CountUpdate(schema[..n], i, entry);
    } else {
      assert schema[i := entry][..n] == schema[..n];
    }
  }

  /** A row adds exactly one column entry. */
  lemma AddRowCount(schema: Schema, row: SchemaRow)
    requires DistinctKeys(schema)
    ensures Count(AddRow(schema, row)) == Count(schema) + 1
  {
    var t := row.tableName;
    var columns := Get(schema, t).GetOr([]) + [ToColumn(row)];
    var i := IndexOf(schema, t);
    if i < 0 {
      assert (schema + [(t, columns)])[..|schema|] == schema;
    } else {
      CountUpdate(schema, i, (t, columns));
    }
  }

  /** Every row contributes exactly one column entry. */
  lemma {:induction false} GroupedCount(rows: seq<SchemaRow>)
    ensures Count(Grouped(rows)) == |rows|
    decreases |rows|
  {
    if rows != [] {
      GroupedCount(rows[..|rows| - 1]);
      AddRowCount(Grouped(rows[..|rows| - 1]), rows[|rows| - 1]);
    }
  }

  /** Creating a missing array and then pushing onto it is one pass of the `forEach`. */
  lemma BuildStep(schema: Schema, row: SchemaRow)
    requires DistinctKeys(schema)
    ensures var t := row.tableName;
      var created := if Get(schema, t).None? then Put(schema, t, []) else schema;
      && DistinctKeys(created) && Get(created, t).Some?
      && Put(created, t, Get(created, t).value + [ToColumn(row)]) == AddRow(schema, row)
  {
    var t := row.tableName;
    if Get(schema, t).None? {
      PutTwice(schema, t, [], [ToColumn(row)]);
      assert [] + [ToColumn(row)] == [ToColumn(row)];
    }
  }

  /** The `forEach` over `result.rows` that builds the schema object. */
  method BuildSchema(rows: seq<SchemaRow>) returns (schema: Schema)
    ensures schema == Grouped(rows)
    ensures DistinctKeys(schema) && Keys(schema) == TablesOf(rows)
    ensures forall t :: Get(schema, t) == if HasTable(rows, t) then Some(ColumnsOf(rows, t)) else None
    ensures Count(schema) == |rows|
    ensures rows == [] ==> schema == []
  {
    schema := [];
    for i := 0 to |rows|
      invariant schema == Grouped(rows[..i])
    {
      var row := rows[i];
      var before := schema;
      if Get(schema, row.tableName).None? {
        schema := Put(schema, row.tableName, []);
      }
      BuildStep(before, row);
      schema := Put(schema, row.tableName, Get(schema, row.tableName).value + [ToColumn(row)]);
      assert rows[..i + 1][..i] == rows[..i];
    }
    assert rows[..|rows|] == rows;
    GroupedKeys(rows);
    GroupedCount(rows);
    forall t ensures Get(schema, t) == if HasTable(rows, t) then Some(ColumnsOf(rows, t)) else None {
      GroupedLookup(rows, t);
      ColumnsOfEmptyIff(rows, t);
    }
  }
}
