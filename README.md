# database-ai: the AI and database services, modelled in Dafny

This project models the two service modules of the database-ai Electron app. The app
turns a natural-language question into PostgreSQL with a chat-completion model. The
modules it models are:

- `src/services/ai.js`:
  - the store of provider settings (`updateModelConfig`, `getModelConfigs`);
  - the prompt built from the schema snapshot and the question;
  - the checks and dispatch of `generateSqlQuery`;
  - `validateGeneratedSQL`, the advisory check of `alias.column` references against the
    schema.
- `src/services/database.js`:
  - the grouping of introspection rows into the schema snapshot (`getDatabaseSchema`);
  - the conversion of query results into serialisable values (`executeQuery`).

Modules:

- `Wrappers`: `Option` and `Result`.
- `Text`: the JavaScript string operations used. These are `join`, `trim`, `split(/\s+/)`,
  `replace(/"/g, '')`, the `\s` class and ASCII case folding.
- `OrderedDict`: a JavaScript plain object as an ordered list of entries. A present key
  keeps its place; a new key goes last.
- `SchemaModel`: the schema snapshot, table name to its columns.
- `Prompt`: the prompt text.
- `SqlPatterns`: the two regular expressions of the validator and the alias map built
  from them.
- `SqlValidator`: the validation report.
- `Providers`: the settings store as a class, the request plan and the outcome of
  `generateSqlQuery`.
- `SchemaBuilder`: the grouping loop of `getDatabaseSchema`.
- `QueryResult`: the row loop and the field projection of `executeQuery`.

The completion services are an oracle: a function from the request to the reply text.
`Date.prototype.toISOString` is a function parameter as well.

Where the code and its comments disagree, the model follows the code. The comment at
`src/services/ai.js:227` says that `FROM users u` gives `{u: "users"}`. The code at line
235 takes `parts[parts.indexOf('AS') + 1] || parts[2]`. `indexOf` is case-sensitive. When
no piece is exactly `AS`, the index is -1 and `parts[0]` is taken, which is the keyword as
written. So `FROM users u` records the key `FROM` for `users`.
`SqlPatterns.AliasIsKeywordWithoutUppercaseAs` states this. Only an upper-case `AS` with a
name after it records that name: this is `SqlPatterns.AliasAfterUppercaseAs`. The
reference pattern interpolates the alias into a regular expression. Every alias the code
can record is made of letters, digits, `_` or `"`, and none of these is special in a
pattern. So the model matches the alias as literal text.

## Model

| member | source | states |
|---|---|---|
| `Text.Trim` | src/services/ai.js:167 | the trimmed reply is a slice of the reply with only whitespace cut from either end, and it neither starts nor ends with whitespace |
| `Text.TrimIdempotent` | src/services/ai.js:195 | trimming a trimmed reply changes nothing |
| `Text.SplitStep` | src/services/ai.js:232 | `split(/\s+/)` splits off a piece without whitespace that a whitespace run follows, then goes on after the run |
| `Text.RemoveAll` | src/services/ai.js:234 | after `replace(/"/g, '')` no double quote is left, every other character occurs as often as before, the text is no longer, and a text without quotes is unchanged |
| `Text.RemoveAllAppend` | src/services/ai.js:234 | removing the quotes from two joined texts removes them from each, so the kept characters stay in order |
| `Text.JoinContainsPart` | src/services/ai.js:108 | every part of a `join` occurs in the joined text |
| `OrderedDict.Get` | src/services/ai.js:270 | `schema[tableName]` is defined exactly when the table is a key |
| `OrderedDict.Put` | src/services/ai.js:237 | an assignment stores the value under the key and leaves every other key's value alone; keys stay distinct, a present key keeps its place and a new key goes last |
| `OrderedDict.PutTwice` | src/services/database.js:98-103 | creating an empty array for a key and then assigning to it leaves what a single assignment leaves |
| `Prompt.NamesWhereAppend` | src/services/ai.js:96-99 | the key lists are built column by column and keep column order |
| `Prompt.NamesWhereNonEmpty` | src/services/ai.js:96-99 | a key list is non-empty exactly when some column has that key flag |
| `Prompt.NamesWhereSound` | src/services/ai.js:96-99 | every listed key name is the name of a column with that flag |
| `Prompt.ColumnLineFormat` | src/services/ai.js:102-107 | a column line is `    - name (Type: type, Nullable or NOT NULL` followed by `, PRIMARY KEY` and then `, FOREIGN KEY` for the flags it has, and `)` |
| `Prompt.AfterHeader` | src/services/ai.js:111-118 | a table block is the `TABLE:` line, then the optional key lines, then `COLUMNS:` and the column lines |
| `Prompt.PrimaryKeyLineIff` | src/services/ai.js:111-114 | a block opens with `TABLE: name`; a `PRIMARY KEY(S): ` line follows exactly when some column is a primary key, and it lists their names in column order |
| `Prompt.ForeignKeyLineIff` | src/services/ai.js:115-117 | after the optional primary-key line comes a `FOREIGN KEY(S): ` line exactly when some column is a foreign key, and it lists their names in column order |
| `Prompt.ColumnLineMentions` | src/services/ai.js:107 | a column line contains the column's name |
| `Prompt.BlockMentionsTable` | src/services/ai.js:111 | a table block contains the table's name, also when the table has no columns |
| `Prompt.BlockMentionsColumn` | src/services/ai.js:102-118 | a table block contains the name of each of its columns |
| `Prompt.SchemaContextSnoc` | src/services/ai.js:94-121 | one more table adds its block after a blank line, so the blocks follow the schema's entry order |
| `Prompt.PromptQuotesQuestion` | src/services/ai.js:130-132 | the prompt contains the question between double quotes, unescaped |
| `Prompt.PromptContainsContext` | src/services/ai.js:124-128 | whatever the schema section contains, the prompt contains |
| `Prompt.PromptContainsBlock` | src/services/ai.js:94-128 | the block of every table of the schema occurs in the prompt |
| `Prompt.PromptMentionsTable` | src/services/ai.js:94-145 | the prompt names every table of the schema, also one without columns |
| `Prompt.PromptMentionsColumn` | src/services/ai.js:94-145 | the prompt names every column of every table of the schema |
| `SqlPatterns.MatchClause` | src/services/ai.js:229 | a clause match starts at the index tried and ends inside the text |
| `SqlPatterns.MatchClauseShape` | src/services/ai.js:229 | a clause match is the keyword in any case, whitespace, a table token, whitespace, an optional `AS` with whitespace, and an optional alias; `AS` is consumed whenever it is there, an alias is taken whenever a letter follows, and it runs to the last identifier character |
| `SqlPatterns.MatchClauseFinds` | src/services/ai.js:229 | wherever the pattern can match, a match is found, with the same table token and whitespace as any possible match |
| `SqlPatterns.MatchClauseUnique` | src/services/ai.js:229 | a match of the pattern's shape that makes the greedy choices is the match found, so the found match is the regular expression's |
| `SqlPatterns.MatchClauseNone` | src/services/ai.js:229 | where no match is found, no text starting there has the pattern's shape |
| `SqlPatterns.FindClauses` | src/services/ai.js:229 | the scan returns exactly the list of global matches of the clause pattern |
| `SqlPatterns.ClausesAreMatches` | src/services/ai.js:229 | every listed match is the text of a match with the pattern's shape |
| `SqlPatterns.NoClauseIn` | src/services/ai.js:244 | no clause match starts at a character that is not the keyword's first letter in either case |
| `SqlPatterns.ClauseParts` | src/services/ai.js:232 | the pieces of a match are the keyword as written, the table token, the `AS` when one was consumed, and the alias or an empty piece |
| `SqlPatterns.ClausePieces` | src/services/ai.js:232-233 | the guard `parts.length >= 3` never rejects a match, and the first piece is the keyword up to case |
| `SqlPatterns.IndexOfAs` | src/services/ai.js:235 | `indexOf('AS')` is -1 exactly when no piece is exactly `AS`, and otherwise the first such piece |
| `SqlPatterns.AliasIsKeywordWithoutUppercaseAs` | src/services/ai.js:235-238 | without a piece exactly `AS` the keyword as written is recorded for the unquoted table, unless the two are equal |
| `SqlPatterns.AliasAfterUppercaseAs` | src/services/ai.js:235-238 | after an exact `AS` a non-empty alias is recorded for the unquoted table, unless the two are equal |
| `SqlPatterns.DanglingAsBecomesAlias` | src/services/ai.js:235-238 | an exact `AS` with no alias after it leaves an empty last piece, and `AS` itself is recorded |
| `SqlPatterns.AddAliasesLookup` | src/services/ai.js:231-240 | an alias maps to the table of the last match that records it, otherwise to what it mapped to before |
| `SqlPatterns.AddAliasesKeepsOrder` | src/services/ai.js:237 | recording aliases never moves a key; new keys go after the existing ones |
| `SqlPatterns.FromAliasesFirst` | src/services/ai.js:228-256 | the aliases of the FROM matches come first in the alias map |
| `SqlPatterns.ExtractAliases` | src/services/ai.js:228-256 | both loops together build exactly the alias map, FROM matches before JOIN matches |
| `SqlPatterns.RefEnd` | src/services/ai.js:263 | a reference matches exactly where the alias, a dot and an identifier's first character start, and the captured identifier runs to the last identifier character |
| `SqlPatterns.FindRefs` | src/services/ai.js:263-264 | the scan returns exactly the captured columns of `matchAll` |
| `SqlPatterns.RefsAreReferences` | src/services/ai.js:263-269 | every captured column is an identifier, and the SQL contains alias, dot and that column |
| `SqlPatterns.NoRefIn` | src/services/ai.js:264 | no reference starts at a character that is not the alias's first character |
| `SqlValidator.CheckReferences` | src/services/ai.js:268-283 | the inner loop's issues are exactly the issues of the alias's references, in match order |
| `SqlValidator.ValidateGeneratedSql` | src/services/ai.js:221-288 | the report lists exactly the issues of every alias in alias-map order, and `hasIssues` holds exactly when the list is non-empty |
| `SqlValidator.RefIssueIff` | src/services/ai.js:270-282 | one reference raises at most one issue, and none exactly when its table exists and has the column |
| `SqlValidator.RefIssuesEmptyIff` | src/services/ai.js:268-283 | the references through one alias raise no issue exactly when each one passes |
| `SqlValidator.AliasIssuesEmptyIff` | src/services/ai.js:261-285 | the alias map raises no issue exactly when every reference through every alias passes |
| `SqlValidator.NoIssuesIff` | src/services/ai.js:221-288 | the report is empty exactly when every `alias.column` reference of every extracted alias names an existing table that has that column |
| `SqlValidator.RefIssuesSound` | src/services/ai.js:268-283 | every issue of one alias is about its table: a missing table, or a referenced column the existing table lacks |
| `SqlValidator.MissingTableIssues` | src/services/ai.js:272-276 | a table missing from the schema gives one `TableNotFound` per reference and nothing else |
| `SqlValidator.AliasIssuesSound` | src/services/ai.js:261-285 | every issue is explained by some entry of the alias map |
| `SqlValidator.IssuesSound` | src/services/ai.js:221-288 | every issue of the report is explained by an alias the validator extracted |
| `SqlValidator.MessageQuotesNames` | src/services/ai.js:274-281 | an issue's text begins with `Table` or `Column` by its kind and quotes the table, and a missing column's text also quotes the column |
| `Providers.MergeFullPatch` | src/services/ai.js:35-38 | a patch with both fields replaces the record, whatever it was |
| `Providers.MergeFields` | src/services/ai.js:35-38 | a field the patch carries takes the patch's value; one it lacks keeps the old value |
| `Providers.MergeIdempotent` | src/services/ai.js:35-38 | applying the same patch twice is applying it once |
| `Providers.MergeThen` | src/services/ai.js:35-38 | two patches in a row act as one patch in which the second one's fields win |
| `Providers.Summaries` | src/services/ai.js:63-75 | the summary lists `openai` then `claude`, each with its model and whether its key is set, and no other provider |
| `Providers.SummariesHideKeys` | src/services/ai.js:63-75 | stores that agree on the models and on which keys are set give the same summary, whatever the keys are |
| `Providers.NoSchemaFirst` | src/services/ai.js:89-91 | the call fails with the no-schema error exactly when the schema is missing or has no tables, before any provider check |
| `Providers.UnsupportedIff` | src/services/ai.js:197-199 | with tables, the call is refused by provider name exactly when the provider is neither `openai` nor `claude` |
| `Providers.MissingKeyIff` | src/services/ai.js:153-172 | with tables, a built-in provider is refused for a missing key exactly when its stored key is missing or empty |
| `Providers.PlannedRequest` | src/services/ai.js:153-196 | a request goes only to a built-in provider with a key, with that provider's model, the prompt for the schema and the question, 1000 tokens and temperature 0.1, and only the Claude request carries the `anthropic-version` header `2023-06-01` |
| `Providers.GeneratedIsTrimmed` | src/services/ai.js:167-208 | the returned SQL has no surrounding whitespace and trimming it again changes nothing |
| `Providers.ErrorMessageIdentifies` | src/services/ai.js:89-199 | the errors raised before any request have different messages, and an unsupported provider's message gives back the refused name |
| `Providers.OpenAiRequestUsesStoredKey` | src/services/ai.js:41-45 | when the client key is the stored OpenAI key, every planned request carries the chosen provider's stored key |
| `Providers.ConfigStore.constructor` | src/services/ai.js:6-20 | the initial store has the environment keys, or empty keys, and the default models, and the client holds the OpenAI key |
| `Providers.ConfigStore.UpdateModelConfig` | src/services/ai.js:28-57 | it succeeds exactly when provider and config are truthy; on failure nothing changes; on success only that provider's record changes, to the merge; the client keeps the stored OpenAI key |
| `Providers.ConfigStore.GetModelConfigs` | src/services/ai.js:63-75 | the summary of the current store |
| `Providers.ConfigStore.GenerateSql` | src/services/ai.js:84-213 | the outcome is the planned request's trimmed reply or the first failing check's error, and exactly the planned request is sent, if there is one |
| `SchemaBuilder.ToColumn` | src/services/database.js:102-109 | `nullable` holds exactly when `is_nullable` is exactly `YES`; name, type, default and key flags are copied |
| `SchemaBuilder.TablesOfSpec` | src/services/database.js:97-100 | the table list names exactly the tables that have rows, each once, in order of their first row |
| `SchemaBuilder.GroupedKeys` | src/services/database.js:96-110 | the keys of the schema are those tables in that order |
| `SchemaBuilder.GroupedLookup` | src/services/database.js:97-109 | `schema[t]` is the column entries of the rows of `t` in row order, and undefined when there are none |
| `SchemaBuilder.ColumnsOfEmptyIff` | src/services/database.js:97-109 | a table has column entries exactly when some row belongs to it |
| `SchemaBuilder.AddRowCount` | src/services/database.js:102-109 | each row adds exactly one column entry |
| `SchemaBuilder.GroupedCount` | src/services/database.js:96-110 | the number of column entries is the number of rows |
| `SchemaBuilder.BuildSchema` | src/services/database.js:96-122 | the loop builds the grouped schema, with those keys, those column lists and one entry per row; no rows give the empty schema |
| `QueryResult.Hex` | src/services/database.js:148-149 | the hex text has two lower-case hex digits per byte |
| `QueryResult.UnhexHex` | src/services/database.js:148-149 | the hex text reads back to the buffer's bytes |
| `QueryResult.Digits` | src/services/database.js:150-151 | the digits of a number have no leading zero unless the number is zero |
| `QueryResult.DecimalRoundTrip` | src/services/database.js:150-151 | the text of a big integer reads back to it |
| `QueryResult.DecimalCanonical` | src/services/database.js:150-151 | the text of a big integer has a minus sign exactly when it is negative, then digits without a leading zero |
| `QueryResult.CleanValue` | src/services/database.js:146-154 | a converted value is never a date, buffer or big integer, and any other value is unchanged |
| `QueryResult.CleanValueReadsBack` | src/services/database.js:146-151 | a date becomes its ISO text, a buffer's text reads back to its bytes and a big integer's to its number |
| `QueryResult.CleanedEntries` | src/services/database.js:143-156 | a cleaned row has the same keys in the same order, each value converted |
| `QueryResult.CleanedLookup` | src/services/database.js:143-156 | `cleanRow[k]` is the converted `row[k]`, and undefined exactly where `row[k]` is |
| `QueryResult.CleanedIdempotent` | src/services/database.js:143-156 | cleaning a cleaned row changes nothing |
| `QueryResult.CleanRow` | src/services/database.js:143-156 | the `for…in` loop builds exactly the cleaned row, with distinct keys |
| `QueryResult.FieldSummaries` | src/services/database.js:160-163 | no fields give `[]`; otherwise one name and type id per field, in order |
| `QueryResult.Serialize` | src/services/database.js:140-164 | as many rows as the driver gave, each the cleaned row; `rowCount` copied; fields projected |

## Left out

- I/O: `pool.query`, the introspection SQL text, `testConnection` and the per-table sampling fallback. The fallback at `src/services/database.js:55-93` only logs, and an empty row list gives the empty schema (`SchemaBuilder.BuildSchema`).
- The OpenAI SDK and axios calls. They are the `complete` oracle of `Providers.Generate`. The OpenAI client object itself is left out; its key is kept as the `openAiClientKey` field.
- All `console` output, the `'****'` masking, and `async`/`await` ordering. The model reads the live store at call time, as the code does.
- The except-and-rethrow blocks: an error is a `Result` value.
- Temperature `0.1` is a recorded constant (`Providers.Temperature`). The model does not reason about floating point.
- `Date.prototype.toISOString` is the `toIso` parameter. A `RangeError` for an invalid date is not modelled.
- Values a row can hold other than dates, buffers, big integers, strings, numbers, booleans and `null`, such as JSON objects and arrays, are not modelled. The code passes them through unchanged.
- Settings values that are not strings, patch fields explicitly set to `undefined`, and extra fields of a settings object are not modelled. A patch carries an API key or a model, or neither.
- A provider argument that is `null` or not a string is not modelled. A missing provider is `openai`.
- Object keys that JavaScript orders specially (integer-like keys go first) and inherited properties are not modelled. Table names, aliases and row keys are treated as ordinary string keys in insertion order.
- Regular-expression matching is not general: each of the three patterns is written out as a scanning function, and the lemmas tie that function to the shape of the pattern.
- `src/renderer.js`, `src/index.js` and `src/preload.js` are not part of this model. They hold DOM, IPC and bridge code.
- SqlPatterns.MatchClause: its own contract states only where a match starts and ends. `SqlPatterns.MatchClauseShape` states the shape and the greedy choices of the match, `SqlPatterns.MatchClauseUnique` that no other such match exists, and `SqlPatterns.MatchClauseNone` that no match exists where none is found.
- Providers.ConfigStore.GetModelConfigs: its contract refers to `Providers.Summaries`, and what the summary contains is stated there.
