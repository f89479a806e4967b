/**
 * The prompt that `generateSqlQuery` sends to a language model: a description of the
 * schema, one block per table, spliced into a fixed PostgreSQL instruction template
 * together with the question.
 */
module Prompt {
  import opened Text
  import opened SchemaModel

  /** The names of the columns that satisfy `p`, in column order (`filter` then `map`). */
  function NamesWhere(columns: seq<ColumnInfo>, p: ColumnInfo -> bool): seq<string>
    decreases |columns|
  {
    if |columns| == 0 then []
    else (if p(columns[0]) then [columns[0].name] else []) + NamesWhere(columns[1..], p)
  }

  predicate IsPrimaryKey(c: ColumnInfo) { c.isPrimaryKey }

  predicate IsForeignKey(c: ColumnInfo) { c.isForeignKey }

  function PrimaryKeyNames(columns: seq<ColumnInfo>): seq<string>
  {
    NamesWhere(columns, IsPrimaryKey)
  }

  function ForeignKeyNames(columns: seq<ColumnInfo>): seq<string>
  {
    NamesWhere(columns, IsForeignKey)
  }

  /** The `keyInfo` list of one column: `PRIMARY KEY` before `FOREIGN KEY`. */
  function KeyInfo(c: ColumnInfo): seq<string>
  {
    (if c.isPrimaryKey then ["PRIMARY KEY"] else []) + (if c.isForeignKey then ["FOREIGN KEY"] else [])
  }

  /** One line of the `COLUMNS:` list. */
  function ColumnLine(c: ColumnInfo): string
  {
    var keyInfo := KeyInfo(c);
    "    - " + c.name + " (Type: " + c.dataType + ", " + (if c.nullable then "Nullable" else "NOT NULL")
    + (if |keyInfo| > 0 then ", " + Join(keyInfo, ", ") else "") + ")"
  }

  function ColumnLines(columns: seq<ColumnInfo>): seq<string>
  {
    seq(|columns|, i requires 0 <= i < |columns| => ColumnLine(columns[i]))
  }

  function TableHeader(name: string): string
  {
    "TABLE: " + name + "\n"
  }

  function PrimaryKeyLine(columns: seq<ColumnInfo>): string
  {
    var keys := PrimaryKeyNames(columns);
    if |keys| > 0 then "PRIMARY KEY(S): " + Join(keys, ", ") + "\n" else ""
  }

  function ForeignKeyLine(columns: seq<ColumnInfo>): string
  {
    var keys := ForeignKeyNames(columns);
    if |keys| > 0 then "FOREIGN KEY(S): " + Join(keys, ", ") + "\n" else ""
  }

  /** The `tableInfo` block of one table. */
  function TableBlock(name: string, columns: seq<ColumnInfo>): string
  {
    TableHeader(name) + PrimaryKeyLine(columns) + ForeignKeyLine(columns)
    + "COLUMNS:\n" + Join(ColumnLines(columns), "\n")
  }

  function Blocks(schema: Schema): seq<string>
  {
    seq(|schema|, i requires 0 <= i < |schema| => TableBlock(schema[i].0, schema[i].1))
  }

  /** `schemaContext`: the blocks, in entry order, separated by a blank line. */
  function SchemaContext(schema: Schema): string
  {
    Join(Blocks(schema), "\n\n")
  }

  const Preamble: string :=
    "\nYou are a precise PostgreSQL expert who translates natural language queries into SQL.\n\n"
    + "POSTGRESQL DATABASE SCHEMA:\n"

  /** The text between the schema and the opening quote of the question. */
  const TaskIntro: string :=
    "\n\nTASK: \nConvert this natural language query to PostgreSQL SQL:\n"

  /** The text after the closing quote of the question. */
  const Guidelines: string :=
    "\n\nIMPORTANT GUIDELINES:\n"
    + "1. Use ONLY tables and columns that exist in the provided schema\n"
    + "2. Double check that EVERY column you reference actually exists in the specified tables\n"
    + "3. Use proper table and column names EXACTLY as shown in the schema (case-sensitive)\n"
    + "4. If a requested column doesn't exist, do not invent it - use columns that are available\n"
    + "5. Do not add \"u.id\" or other columns that aren't listed in the schema\n"
    + "6. Pay special attention to table names (they might be singular or plural)\n"
    + "7. If joining tables, ensure the join columns actually exist in both tables\n"
    + "8. Return ONLY the executable SQL query with no explanations or markdown\n"
    + "\nSQL QUERY:\n"

  /** The prompt for `question` over `schema`; being a function, equal inputs give equal text. */
  function BuildPrompt(schema: Schema, question: string): string
  {
    Preamble + SchemaContext(schema) + TaskIntro + Quoted(question) + Guidelines
  }

  /** `"${question}"`: the question between double quotes, not escaped. */
  function Quoted(question: string): string
  {
    "\"" + question + "\""
  }

  // ----- Key lists -----

  /** The key lists are computed column by column: the list of a concatenation is the concatenation of the lists. */
  lemma {:induction false} NamesWhereAppend(a: seq<ColumnInfo>, b: seq<ColumnInfo>, p: ColumnInfo -> bool)
    ensures NamesWhere(a + b, p) == NamesWhere(a, p) + NamesWhere(b, p)
    decreases |a|
  {
    if |a| == 0 {
      assert a + b == b;
    } else {
      assert (a + b)[0] == a[0];
      assert (a + b)[1..] == a[1..] + b;
      NamesWhereAppend(a[1..], b, p);
    }
  }

  /** A single column contributes its name exactly when it satisfies `p`. */
  lemma NamesWhereSingle(c: ColumnInfo, p: ColumnInfo -> bool)
    ensures NamesWhere([c], p) == if p(c) then [c.name] else []
  {
    assert [c][1..] == [];
  }

  /** A key list is non-empty exactly when some column satisfies `p`. */
  lemma {:induction false} NamesWhereNonEmpty(columns: seq<ColumnInfo>, p: ColumnInfo -> bool)
    ensures |NamesWhere(columns, p)| > 0 <==> exists i :: 0 <= i < |columns| && p(columns[i])
    decreases |columns|
  {
    if |columns| > 0 {
      NamesWhereNonEmpty(columns[1..], p);
      if !p(columns[0]) && exists i :: 0 <= i < |columns| && p(columns[i]) {
        var i :| 0 <= i < |columns| && p(columns[i]);
        assert p(columns[1..][i - 1]);
      }
      if exists i :: 0 <= i < |columns[1..]| && p(columns[1..][i]) {
        var i :| 0 <= i < |columns[1..]| && p(columns[1..][i]);
        assert p(columns[i + 1]);
      }
    }
  }

  /** Every listed key name is the name of a column that satisfies `p`. */
  lemma {:induction false} NamesWhereSound(columns: seq<ColumnInfo>, p: ColumnInfo -> bool, j: nat)
    requires j < |NamesWhere(columns, p)|
    ensures exists i :: 0 <= i < |columns| && p(columns[i]) && columns[i].name == NamesWhere(columns, p)[j]
    decreases |columns|
  {
    if p(columns[0]) && j == 0 {
      assert p(columns[0]) && columns[0].name == NamesWhere(columns, p)[0];
    } else {
      var j' := if p(columns[0]) then j - 1 else j;
      NamesWhereSound(columns[1..], p, j');
      var i :| 0 <= i < |columns[1..]| && p(columns[1..][i]) && columns[1..][i].name == NamesWhere(columns[1..], p)[j'];
      assert columns[i + 1] == columns[1..][i];
    }
  }

  // ----- The block of one table -----

  /** The exact format of a column line, spelled out case by case. */
  lemma ColumnLineFormat(c: ColumnInfo)
    ensures ColumnLine(c) ==
      "    - " + c.name + " (Type: " + c.dataType + ", " + (if c.nullable then "Nullable" else "NOT NULL")
      + (if c.isPrimaryKey then ", PRIMARY KEY" else "") + (if c.isForeignKey then ", FOREIGN KEY" else "")
      + ")"
  {
    var head := "    - " + c.name + " (Type: " + c.dataType + ", " + (if c.nullable then "Nullable" else "NOT NULL");
    var primary := if c.isPrimaryKey then ", PRIMARY KEY" else "";
    var foreign := if c.isForeignKey then ", FOREIGN KEY" else "";
    KeySuffix(c);
    assert head + (primary + foreign) == head + primary + foreign;
  }

  /** The key part of a column line, case by case. */
  lemma KeySuffix(c: ColumnInfo)
    ensures (if |KeyInfo(c)| > 0 then ", " + Join(KeyInfo(c), ", ") else "") ==
      (if c.isPrimaryKey then ", PRIMARY KEY" else "") + (if c.isForeignKey then ", FOREIGN KEY" else "")
  {
    if c.isPrimaryKey && c.isForeignKey {
      assert KeyInfo(c) == ["PRIMARY KEY", "FOREIGN KEY"];
      assert Join(KeyInfo(c), ", ") == "PRIMARY KEY" + ", " + "FOREIGN KEY";
    } else if c.isPrimaryKey {
      assert KeyInfo(c) == ["PRIMARY KEY"];
    } else if c.isForeignKey {
      assert KeyInfo(c) == ["FOREIGN KEY"];
    } else {
      assert KeyInfo(c) == [];
    }
  }

  /** A key line opens with its heading. */
  lemma KeyLineOpens(heading: string, names: seq<string>)
    ensures StartsWith(heading + Join(names, ", ") + "\n", heading)
  {
    PrefixSplit(heading, Join(names, ", "));
    StartsWithAppend(heading + Join(names, ", "), "\n", heading);
  }

  /**
   * What follows the `TABLE:` line of a block: the optional key lines, the `COLUMNS:`
   * heading and the column lines.
   */
  lemma AfterHeader(name: string, columns: seq<ColumnInfo>)
    ensures |TableHeader(name)| <= |TableBlock(name, columns)|
    ensures StartsWith(TableBlock(name, columns), TableHeader(name))
    ensures TableBlock(name, columns)[|TableHeader(name)|..] ==
            PrimaryKeyLine(columns) + ForeignKeyLine(columns) + "COLUMNS:\n" + Join(ColumnLines(columns), "\n")
    ensures TableBlock(name, columns)[|TableHeader(name)| + |PrimaryKeyLine(columns)|..] ==
            ForeignKeyLine(columns) + "COLUMNS:\n" + Join(ColumnLines(columns), "\n")
  {
    var h, pk, fk := TableHeader(name), PrimaryKeyLine(columns), ForeignKeyLine(columns);
    DropLeadingParts(h, pk, fk, "COLUMNS:\n", Join(ColumnLines(columns), "\n"));
  }

  /** Dropping the first one or two of five concatenated parts leaves the others. */
  lemma DropLeadingParts(h: string, pk: string, fk: string, c: string, j: string)
    ensures StartsWith(h + pk + fk + c + j, h)
    ensures (h + pk + fk + c + j)[|h|..] == pk + fk + c + j
    ensures (h + pk + fk + c + j)[|h| + |pk|..] == fk + c + j
  {
    DropFromConcat(h + pk + fk + c, j, |h|);
    DropFromConcat(h + pk + fk, c, |h|);
    DropFromConcat(h + pk, fk, |h|);
    PrefixSplit(h, pk);
    DropFromConcat(h + pk + fk + c, j, |h| + |pk|);
    DropFromConcat(h + pk + fk, c, |h| + |pk|);
    PrefixSplit(h + pk, fk);
    StartsWithAppend(h + pk, fk, h);
    StartsWithAppend(h + pk + fk, c, h);
    StartsWithAppend(h + pk + fk + c, j, h);
  }

  /**
   * A block opens with `TABLE: <name>`, and the line after it is a `PRIMARY KEY(S): `
   * line exactly when some column is a primary key; that line lists the primary-key
   * names in column order.
   */
  lemma PrimaryKeyLineIff(name: string, columns: seq<ColumnInfo>)
    ensures StartsWith(TableBlock(name, columns), "TABLE: " + name + "\n")
    ensures StartsWith(TableBlock(name, columns)[|TableHeader(name)|..], "PRIMARY KEY(S): ")
            <==> exists i :: 0 <= i < |columns| && columns[i].isPrimaryKey
    ensures (exists i :: 0 <= i < |columns| && columns[i].isPrimaryKey) ==>
            StartsWith(TableBlock(name, columns)[|TableHeader(name)|..],
                       "PRIMARY KEY(S): " + Join(PrimaryKeyNames(columns), ", ") + "\n")
  {
    AfterHeader(name, columns);
    var pk, fk := PrimaryKeyLine(columns), ForeignKeyLine(columns);
    var c, j := "COLUMNS:\n", Join(ColumnLines(columns), "\n");
    var rest := pk + fk + c + j;
    NamesWhereNonEmpty(columns, IsPrimaryKey);
    if exists i :: 0 <= i < |columns| && columns[i].isPrimaryKey {
      var heading := "PRIMARY KEY(S): ";
      KeyLineOpens(heading, PrimaryKeyNames(columns));
      PrefixSplit(pk, fk);
      StartsWithAppend(pk + fk, c, pk);
      StartsWithAppend(pk + fk + c, j, pk);
      StartsWithTransitive(rest, pk, heading);
    } else {
      assert pk == "";
      assert rest[0] == 'F' || rest[0] == 'C';
    }
  }

  /**
   * The line after the optional primary-key line is a `FOREIGN KEY(S): ` line exactly
   * when some column is a foreign key; that line lists the foreign-key names in column
   * order.
   */
  lemma ForeignKeyLineIff(name: string, columns: seq<ColumnInfo>)
    ensures var at := |TableHeader(name)| + |PrimaryKeyLine(columns)|;
            at <= |TableBlock(name, columns)| &&
            (StartsWith(TableBlock(name, columns)[at..], "FOREIGN KEY(S): ")
             <==> exists i :: 0 <= i < |columns| && columns[i].isForeignKey)
    ensures var at := |TableHeader(name)| + |PrimaryKeyLine(columns)|;
            at <= |TableBlock(name, columns)| &&
            ((exists i :: 0 <= i < |columns| && columns[i].isForeignKey) ==>
             StartsWith(TableBlock(name, columns)[at..],
                        "FOREIGN KEY(S): " + Join(ForeignKeyNames(columns), ", ") + "\n"))
  {
    AfterHeader(name, columns);
    var fk := ForeignKeyLine(columns);
    var c, j := "COLUMNS:\n", Join(ColumnLines(columns), "\n");
    var rest := fk + c + j;
    NamesWhereNonEmpty(columns, IsForeignKey);
    if exists i :: 0 <= i < |columns| && columns[i].isForeignKey {
      var heading := "FOREIGN KEY(S): ";
      KeyLineOpens(heading, ForeignKeyNames(columns));
      PrefixSplit(fk, c);
      StartsWithAppend(fk + c, j, fk);
      StartsWithTransitive(rest, fk, heading);
    } else {
      assert fk == "";
      assert rest[0] == 'C';
    }
  }

  /** A column line names its column. */
  lemma ColumnLineMentions(c: ColumnInfo)
    ensures Contains(ColumnLine(c), c.name)
  {
    var keyInfo := KeyInfo(c);
    ContainsSelf(c.name);
    ContainsPrepend("    - ", c.name, c.name);
    var s := "    - " + c.name;
    ContainsAppend(s, " (Type: ", c.name);
    ContainsAppend(s + " (Type: ", c.dataType, c.name);
    ContainsAppend(s + " (Type: " + c.dataType, ", ", c.name);
    var n := if c.nullable then "Nullable" else "NOT NULL";
    ContainsAppend(s + " (Type: " + c.dataType + ", ", n, c.name);
    var k := if |keyInfo| > 0 then ", " + Join(keyInfo, ", ") else "";
    ContainsAppend(s + " (Type: " + c.dataType + ", " + n, k, c.name);
    ContainsAppend(s + " (Type: " + c.dataType + ", " + n + k, ")", c.name);
  }

  /** The block of a table names the table, whether or not the table has columns. */
  lemma BlockMentionsTable(name: string, columns: seq<ColumnInfo>)
    ensures Contains(TableBlock(name, columns), name)
  {
    var h, pk, fk := TableHeader(name), PrimaryKeyLine(columns), ForeignKeyLine(columns);
    var c, body := "COLUMNS:\n", Join(ColumnLines(columns), "\n");
    ContainsSelf(name);
    ContainsPrepend("TABLE: ", name, name);
    ContainsAppend("TABLE: " + name, "\n", name);
    ContainsAppend(h, pk, name);
    ContainsAppend(h + pk, fk, name);
    ContainsAppend(h + pk + fk, c, name);
    ContainsAppend(h + pk + fk + c, body, name);
  }

  /** The block of a table names each of its columns, through the column's line. */
  lemma BlockMentionsColumn(name: string, columns: seq<ColumnInfo>, j: nat)
    requires j < |columns|
    ensures Contains(TableBlock(name, columns), columns[j].name)
  {
    var h, pk, fk := TableHeader(name), PrimaryKeyLine(columns), ForeignKeyLine(columns);
    var c, body := "COLUMNS:\n", Join(ColumnLines(columns), "\n");
    JoinContainsPart(ColumnLines(columns), "\n", j);
    ContainsPrepend(h + pk + fk + c, body, ColumnLine(columns[j]));
    ColumnLineMentions(columns[j]);
    ContainsTransitive(TableBlock(name, columns), ColumnLine(columns[j]), columns[j].name);
  }

  // ----- The schema section and the prompt -----

  /** Adding a table adds its block after a blank line: one block per table, in entry order. */
  lemma SchemaContextSnoc(schema: Schema, name: string, columns: seq<ColumnInfo>)
    ensures SchemaContext(schema + [(name, columns)]) ==
            if schema == [] then TableBlock(name, columns)
            else SchemaContext(schema) + "\n\n" + TableBlock(name, columns)
  {
    assert Blocks(schema + [(name, columns)]) == Blocks(schema) + [TableBlock(name, columns)];
    JoinSnoc(Blocks(schema), TableBlock(name, columns), "\n\n");
  }

  /** The prompt quotes the question verbatim. */
  lemma PromptQuotesQuestion(schema: Schema, question: string)
    ensures Contains(BuildPrompt(schema, question), "\"" + question + "\"")
  {
    var q := Quoted(question);
    ContainsSelf(q);
    ContainsPrepend(Preamble + SchemaContext(schema) + TaskIntro, q, q);
    ContainsAppend(Preamble + SchemaContext(schema) + TaskIntro + q, Guidelines, q);
  }

  /** Whatever the schema section contains, the prompt contains. */
  lemma PromptContainsContext(schema: Schema, question: string, t: string)
    requires Contains(SchemaContext(schema), t)
    ensures Contains(BuildPrompt(schema, question), t)
  {
    var ctx := SchemaContext(schema);
    ContainsPrepend(Preamble, ctx, t);
    ContainsAppend(Preamble + ctx, TaskIntro, t);
    ContainsAppend(Preamble + ctx + TaskIntro, Quoted(question), t);
    ContainsAppend(Preamble + ctx + TaskIntro + Quoted(question), Guidelines, t);
  }

  /** The block of every table occurs in the prompt. */
  lemma PromptContainsBlock(schema: Schema, question: string, i: nat)
    requires i < |schema|
    ensures Contains(BuildPrompt(schema, question), TableBlock(schema[i].0, schema[i].1))
  {
    var block := TableBlock(schema[i].0, schema[i].1);
    JoinContainsPart(Blocks(schema), "\n\n", i);
    assert Blocks(schema)[i] == block;
    PromptContainsContext(schema, question, block);
  }

  /** The prompt names every table of the schema, also one without columns. */
  lemma PromptMentionsTable(schema: Schema, question: string, i: nat)
    requires i < |schema|
    ensures Contains(BuildPrompt(schema, question), schema[i].0)
  {
    PromptContainsBlock(schema, question, i);
    BlockMentionsTable(schema[i].0, schema[i].1);
    ContainsTransitive(BuildPrompt(schema, question), TableBlock(schema[i].0, schema[i].1), schema[i].0);
  }

  /** The prompt names every column of every table of the schema. */
  lemma PromptMentionsColumn(schema: Schema, question: string, i: nat, j: nat)
    requires i < |schema| && j < |schema[i].1|
    ensures Contains(BuildPrompt(schema, question), schema[i].1[j].name)
  {
    PromptContainsBlock(schema, question, i);
    BlockMentionsColumn(schema[i].0, schema[i].1, j);
    ContainsTransitive(BuildPrompt(schema, question), TableBlock(schema[i].0, schema[i].1), schema[i].1[j].name);
  }
}
