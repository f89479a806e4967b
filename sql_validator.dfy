/**
 * The issues `validateGeneratedSQL` reports: for every alias of the alias map, every
 * `alias.column` reference whose table is not in the schema or has no such column.
 */
module SqlValidator {
  import opened Wrappers
  import opened SchemaModel
  import opened OrderedDict
  import opened SqlPatterns
  import opened Text

  datatype Issue = TableNotFound(table: string) | ColumnNotFound(column: string, table: string)

  /** A name between double quotes. */
  function Quote(name: string): string
  {
    "\"" + name + "\""
  }

  /** The text the source pushes for an issue. */
  function Message(issue: Issue): string
  {
    match issue
    case TableNotFound(t) => "Table " + Quote(t) + " not found in schema"
    case ColumnNotFound(c, t) => "Column " + Quote(c) + " not found in table " + Quote(t)
  }

  /**
   * The text of an issue says which kind it is by its first word and quotes the table,
   * and for a missing column also the column.
   */
  lemma MessageQuotesNames(issue: Issue)
    ensures Message(issue)[0] == if issue.TableNotFound? then 'T' else 'C'
    ensures Contains(Message(issue), Quote(issue.table))
    ensures issue.ColumnNotFound? ==> Contains(Message(issue), Quote(issue.column))
  {
    match issue
    case TableNotFound(t) =>
      ContainsSelf(Quote(t));
      ContainsInContext("Table ", Quote(t), " not found in schema", Quote(t));
    case ColumnNotFound(c, t) =>
      var head := "Column " + Quote(c) + " not found in table ";
      ContainsSelf(Quote(t));
      ContainsInContext(head, Quote(t), "", Quote(t));
      assert head + Quote(t) + "" == Message(issue);
      ContainsSelf(Quote(c));
      ContainsInContext("Column ", Quote(c), " not found in table " + Quote(t), Quote(c));
      assert "Column " + Quote(c) + (" not found in table " + Quote(t)) == Message(issue);
  }

  datatype Report = Report(hasIssues: bool, issues: seq<Issue>)

  /** A reference `alias.column` to `table` passes when the table exists and has the column. */
  predicate RefOk(schema: Schema, table: string, column: string)
  {
    Get(schema, table).Some? && HasColumn(Get(schema, table).value, column)
  }

  /** The issue one reference raises, if any. */
  function RefIssue(schema: Schema, table: string, column: string): seq<Issue>
  {
    match Get(schema, table)
    case None => [TableNotFound(table)]
    case Some(columns) => if HasColumn(columns, column) then [] else [ColumnNotFound(column, table)]
  }

  /** The issues of the references through one alias, in match order. */
  function RefIssues(schema: Schema, table: string, cols: seq<string>): seq<Issue>
    decreases |cols|
  {
    if cols == [] then [] else RefIssue(schema, table, cols[0]) + RefIssues(schema, table, cols[1..])
  }

  /** The issues of every alias, in alias-map order. */
  function AliasIssues(sql: string, schema: Schema, aliases: Dict<string>): seq<Issue>
    decreases |aliases|
  {
    if aliases == [] then []
    else RefIssues(schema, aliases[0].1, Refs(sql, aliases[0].0, 0)) + AliasIssues(sql, schema, aliases[1..])
  }

  /** The issues `validateGeneratedSQL` reports for `sql` against `schema`. */
  function Issues(sql: string, schema: Schema): seq<Issue>
  {
    AliasIssues(sql, schema, AliasMap(sql))
  }

  /** One step of the inner loop keeps the loop's invariant. */
  lemma RefIssuesStep(schema: Schema, table: string, cols: seq<string>, n: nat, before: seq<Issue>, after: seq<Issue>)
    requires n < |cols|
    requires before + RefIssues(schema, table, cols[n..]) == RefIssues(schema, table, cols)
    requires after == before + RefIssue(schema, table, cols[n])
    ensures after + RefIssues(schema, table, cols[n + 1..]) == RefIssues(schema, table, cols)
  {
    var here, rest := RefIssue(schema, table, cols[n]), RefIssues(schema, table, cols[n + 1..]);
    assert RefIssues(schema, table, cols[n..]) == here + rest by {
      assert cols[n..][0] == cols[n];
      assert cols[n..][1..] == cols[n + 1..];
    }
    assert after + rest == before + (here + rest);
  }

  /** The inner loop of the validator: the issues of the references through one alias. */
  method CheckReferences(schema: Schema, tableName: string, cols: seq<string>) returns (issues: seq<Issue>)
    ensures issues == RefIssues(schema, tableName, cols)
  {
    issues := [];
    for n := 0 to |cols|
      invariant issues + RefIssues(schema, tableName, cols[n..]) == RefIssues(schema, tableName, cols)
    {
      ghost var before := issues;
      var schemaTable := Get(schema, tableName);
      if schemaTable.None? {
        issues := issues + [TableNotFound(tableName)];
      } else if !HasColumn(schemaTable.value, cols[n]) {
        issues := issues + [ColumnNotFound(cols[n], tableName)];
      }
      RefIssuesStep(schema, tableName, cols, n, before, issues);
    }
  }

  /** One step of the outer loop keeps the loop's invariant. */
  lemma AliasIssuesStep(sql: string, schema: Schema, aliases: Dict<string>, k: nat, before: seq<Issue>)
    requires k < |aliases|
    ensures before + AliasIssues(sql, schema, aliases[k..]) ==
      before + RefIssues(schema, aliases[k].1, Refs(sql, aliases[k].0, 0)) + AliasIssues(sql, schema, aliases[k + 1..])
  {
    var here := RefIssues(schema, aliases[k].1, Refs(sql, aliases[k].0, 0));
    var rest := AliasIssues(sql, schema, aliases[k + 1..]);
    assert AliasIssues(sql, schema, aliases[k..]) == here + rest by {
      assert aliases[k..][0] == aliases[k];
      assert aliases[k..][1..] == aliases[k + 1..];
    }
    assert before + (here + rest) == before + here + rest;
  }

  /** `validateGeneratedSQL(sql, schema)`. */
  method ValidateGeneratedSql(sql: string, schema: Schema) returns (result: Report)
    ensures result.issues == Issues(sql, schema)
    ensures result.hasIssues <==> |result.issues| > 0
  {
    var issues := [];
    var aliases := ExtractAliases(sql);
    for k := 0 to |aliases|
      invariant issues + AliasIssues(sql, schema, aliases[k..]) == Issues(sql, schema)
    {
      var alias, tableName := aliases[k].0, aliases[k].1;
      var cols := FindRefs(sql, alias);
      var found := CheckReferences(schema, tableName, cols);
      AliasIssuesStep(sql, schema, aliases, k, issues);
      issues := issues + found;
    }
    result := Report(|issues| > 0, issues);
  }

  // ----- What the report means -----

  /** Every reference through the alias of `entry` passes against the table it names. */
  predicate AliasRefsOk(sql: string, schema: Schema, entry: (string, string))
  {
    var cols := Refs(sql, entry.0, 0);
    forall i :: 0 <= i < |cols| ==> RefOk(schema, entry.1, cols[i])
  }

  /** One reference raises no issue exactly when it passes, and at most one otherwise. */
  lemma RefIssueIff(schema: Schema, table: string, column: string)
    ensures |RefIssue(schema, table, column)| <= 1
    ensures RefIssue(schema, table, column) == [] <==> RefOk(schema, table, column)
  {
  }

  /** The references through one alias raise no issue exactly when every one of them passes. */
  lemma {:induction false} RefIssuesEmptyIff(schema: Schema, table: string, cols: seq<string>)
    ensures RefIssues(schema, table, cols) == [] <==> forall i :: 0 <= i < |cols| ==> RefOk(schema, table, cols[i])
    decreases |cols|
  {
    if cols != [] {
      RefIssueIff(schema, table, cols[0]);
      RefIssuesEmptyIff(schema, table, cols[1..]);
      assert forall i :: 1 <= i < |cols| ==> cols[1..][i - 1] == cols[i];
    }
  }

  /** The alias map raises no issue exactly when every reference through every alias passes. */
  lemma {:induction false} AliasIssuesEmptyIff(sql: string, schema: Schema, aliases: Dict<string>)
    ensures AliasIssues(sql, schema, aliases) == [] <==>
      forall k :: 0 <= k < |aliases| ==> AliasRefsOk(sql, schema, aliases[k])
    decreases |aliases|
  {
    if aliases != [] {
      RefIssuesEmptyIff(schema, aliases[0].1, Refs(sql, aliases[0].0, 0));
      AliasIssuesEmptyIff(sql, schema, aliases[1..]);
      assert forall k :: 1 <= k < |aliases| ==> aliases[1..][k - 1] == aliases[k];
    }
  }

  /**
   * `hasIssues` is false exactly when every `alias.column` reference of every alias the
   * validator extracted names a table of the schema that has that column.
   */
  lemma NoIssuesIff(sql: string, schema: Schema)
    ensures Issues(sql, schema) == [] <==>
      forall k :: 0 <= k < |AliasMap(sql)| ==> AliasRefsOk(sql, schema, AliasMap(sql)[k])
  {
    AliasIssuesEmptyIff(sql, schema, AliasMap(sql));
  }

  /**
   * Why an issue is raised for a reference through `entry`: its table is the entry's
   * table, a missing table is reported only when there is a reference, and a missing
   * column is a referenced column that the table, which exists, does not have.
   */
  predicate Explains(sql: string, schema: Schema, entry: (string, string), issue: Issue)
  {
    var cols := Refs(sql, entry.0, 0);
    issue.table == entry.1
    && match issue
       case TableNotFound(_) => cols != [] && Get(schema, entry.1).None?
       case ColumnNotFound(c, _) =>
         c in cols && Get(schema, entry.1).Some? && !HasColumn(Get(schema, entry.1).value, c)
  }

  /** Every issue for one alias's references is about that table and one of those references. */
  lemma {:induction false} RefIssuesSound(schema: Schema, table: string, cols: seq<string>, n: nat)
    requires n < |RefIssues(schema, table, cols)|
    ensures var issue := RefIssues(schema, table, cols)[n];
      && issue.table == table
      && match issue
         case TableNotFound(_) => Get(schema, table).None?
         case ColumnNotFound(c, _) => c in cols && Get(schema, table).Some? && !HasColumn(Get(schema, table).value, c)
    decreases |cols|
  {
    var here := RefIssue(schema, table, cols[0]);
    if n >= |here| {
      RefIssuesSound(schema, table, cols[1..], n - |here|);
      assert RefIssues(schema, table, cols)[n] == RefIssues(schema, table, cols[1..])[n - |here|];
    } else {
      assert RefIssues(schema, table, cols)[n] == here[n];
    }
  }

  /** A table missing from the schema gives one `TableNotFound` per reference. */
  lemma {:induction false} MissingTableIssues(schema: Schema, table: string, cols: seq<string>)
    requires Get(schema, table).None?
    ensures |RefIssues(schema, table, cols)| == |cols|
    ensures forall n :: 0 <= n < |cols| ==> RefIssues(schema, table, cols)[n] == TableNotFound(table)
    decreases |cols|
  {
    if cols != [] {
      MissingTableIssues(schema, table, cols[1..]);
    }
  }

  /** Every issue of the report is explained by an entry of the alias map. */
  lemma {:induction false} AliasIssuesSound(sql: string, schema: Schema, aliases: Dict<string>, n: nat)
    requires n < |AliasIssues(sql, schema, aliases)|
    ensures exists k :: 0 <= k < |aliases| && Explains(sql, schema, aliases[k], AliasIssues(sql, schema, aliases)[n])
    decreases |aliases|
  {
    var cols := Refs(sql, aliases[0].0, 0);
    var first := RefIssues(schema, aliases[0].1, cols);
    if n < |first| {
      RefIssuesSound(schema, aliases[0].1, cols, n);
      assert AliasIssues(sql, schema, aliases)[n] == first[n];
      assert cols != [];
      assert Explains(sql, schema, aliases[0], first[n]);
    } else {
      AliasIssuesSound(sql, schema, aliases[1..], n - |first|);
      assert AliasIssues(sql, schema, aliases)[n] == AliasIssues(sql, schema, aliases[1..])[n - |first|];
      var k :| 0 <= k < |aliases[1..]| && Explains(sql, schema, aliases[1..][k], AliasIssues(sql, schema, aliases[1..])[n - |first|]);
      assert aliases[1..][k] == aliases[k + 1];
    }
  }

  /** Every issue the validator reports is explained by an alias it extracted. */
  lemma IssuesSound(sql: string, schema: Schema, n: nat)
    requires n < |Issues(sql, schema)|
    ensures exists k :: 0 <= k < |AliasMap(sql)| && Explains(sql, schema, AliasMap(sql)[k], Issues(sql, schema)[n])
  {
    AliasIssuesSound(sql, schema, AliasMap(sql), n);
  }
}
