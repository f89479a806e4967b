/**
 * The schema snapshot that schema introspection produces and that the prompt builder and
 * the SQL validator read: table name to its columns, in table order.
 */
module SchemaModel {
  import opened Wrappers
  import OrderedDict

  /** One column as `getDatabaseSchema` records it. */
  datatype ColumnInfo = ColumnInfo(
    name: string,
    dataType: string,
    nullable: bool,
    defaultValue: Option<string>,  // `column_default`, `None` for SQL NULL
    isPrimaryKey: bool,
    isForeignKey: bool)

  /** Table name to its columns; the order of the entries is the order of `Object.entries`. */
  type Schema = OrderedDict.Dict<seq<ColumnInfo>>

  /** `columns.some(col => col.name === name)`: the comparison is exact and case-sensitive. */
  predicate HasColumn(columns: seq<ColumnInfo>, name: string)
  {
    exists i :: 0 <= i < |columns| && columns[i].name == name
  }
}
