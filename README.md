# equipfun: the execute / map rows / pick a result step

equipfun serves a GraphQL API over a Neo4j graph store. Its core logic turns a
query result into typed `Todo` values. A resolver runs a Cypher statement on the
request's connection and walks the result rows in store order. It applies a
mapper to each row and pushes the mapped object into a vector. Then it returns
either the whole vector (list cardinality, `todoItems`) or the last element,
popped and unwrapped (single cardinality, `add_todo`, and the generic
`call<T>`).

This project models that step in Dafny and proves what it promises:

- a driver error is handed back before any row is mapped;
- the mapper runs on every row, and the first failing row fails the call;
- list cardinality keeps one object per row, in row order, and zero rows is `Ok([])`;
- single cardinality returns the last row's object, and zero rows is a failure;
- the mapper reads exactly the three columns its statement returns;
- the mapper never builds a partially filled `Todo`.

Modules, leaf first:

- `Cypher` (cypher.dfy): the driver boundary. It holds the column values, rows
  (`map<string, Value>`), the result of `exec` (a driver error or a sequence of
  rows) and the typed `row.get::<T>`.
- `Literals` (literals.dfy): how `format!("{:?}", ..)` spells a string, a bool
  and an integer inside statement text, and how the store reads a string
  literal back.
- `Rows` (rows.dfy): the row loop as specification functions. `MapRows` is the
  push loop. `ManyOutcome` and `OneOutcome` give the result for list and single
  cardinality. `UnwrapExec` is what `result.unwrap()` in place of `?`
  makes of an outcome: it turns `QueryFailed` into `QueryPanicked`. The lemmas about them are here too.
- `Models` (models.dfy): the `Todo` record.
- `TodoStatements` (todo_statements.dfy): the statement text both schemas
  share: the three Todo columns, the RETURN clause that lists them and the
  start of the CREATE pattern.
- `Neo` (neo.dfy): `new_from_row` and the generic executor `call`.
- `Schema` (schema.dfy): the current schema's `todoItems` and `add_todo`.
- `GraphqlSchema` (graphql_schema.dfy): the older schema. It has its own `Todo`
  with an `i32` id and its own field getters. Its `todoItems` and `add_todo`
  `unwrap()` the driver result.

Each resolver is a method with the source's loop. The loop grows a `seq` by
push, and `add_todo` and `call` pop the last element. Each method's `ensures`
ties its outcome to `ManyOutcome` or `OneOutcome` of what `exec` returned for
its statement. A ghost out-parameter `mapped` starts at 0 before `exec` and is
incremented right after each mapper call. Its `ensures` show that a driver
error maps no row, that a failure stops right after the row that failed, and
that otherwise every row was mapped once.

An `Outcome` is one of five cases:

- `Ok`;
- `QueryFailed`: the driver error handed back through `?`;
- `QueryPanicked`: `result.unwrap()` on a driver error;
- `MappingFailed(i)`: an `unwrap()` in the mapper panicked on row `i`;
- `NotFound`: `pop().unwrap()` on an empty vector.

The last three are panics in the source.

Two points of the code are easy to misread:

- A row the mapper cannot read and a single-result call with zero rows are not
  errors handed back to the caller: both are `unwrap()` panics. The model keeps
  them as distinct outcomes and marks them as panics (`Outcome.Panicked`).
- A single-result call that gets two or more rows does not reject them: it
  takes the last one (`Rows.OneOk`, `Rows.OneDependsOnlyOnLast`).

## Model

| member | source | states |
|---|---|---|
| Neo.NewFromRow | src/neo.rs:17-19 | no contract of its own: a one-line delegation to the mapper; `Neo.Call` applies it to every row, and `Call`'s `OneOutcome` contract covers it |
| Neo.Call | src/neo.rs:21-30 | the outcome is `OneOutcome` of the driver's answer; counting every mapper call, a driver error comes back with no row mapped, a mapping failure at row i comes after exactly i+1 mapper calls, and otherwise every row was mapped once |
| Rows.MapRows | src/neo.rs:23-27 | when the loop completes, the vector has one entry per row; a failure names a row that exists |
| Rows.MappedOnlyByRows | src/neo.rs:23-27 | a completed loop holds one object per row, each the mapper's value on the row at the same position |
| Rows.MappedByRows | src/neo.rs:23-27 | when every row maps to the object at its position, the loop completes with exactly those objects |
| Rows.MapRowsMappedIff | src/neo.rs:23-27 | the loop completes with `objects` exactly when `objects` has one entry per row and `objects[k]` is the mapper's value on `rows[k]` for every k, in store order |
| Rows.MapRowsFailedAtIff | src/neo.rs:24-27 | the loop stops at row i exactly when row i is the first row the mapper fails on |
| Rows.MapRowsAllOrFirstFailure | src/neo.rs:24-27 | the loop completes exactly when every row maps; otherwise it stops at the first failing row |
| Rows.ManyOutcome | src/schema.rs:21-30 | no contract of its own: list cardinality, the driver error or the loop's vector; characterised by `Rows.ManyOk`, `Rows.ManyFails` and `Rows.DriverErrorBeforeMapping` |
| Rows.OneOutcome | src/neo.rs:21-30 | no contract of its own: single cardinality, the driver error, the loop's failure or the popped last object; characterised by `Rows.OneOk`, `Rows.OneNotFound`, `Rows.OneFails` and `Rows.OneIsLastOfMany` |
| Rows.UnwrapExec | src/graphql/schema.rs:35-37 | unwrapping the driver result never hands back a driver error: a driver error becomes `QueryPanicked` with that error; success and its value are unchanged; panics pass through unchanged |
| Rows.DriverErrorBeforeMapping | src/neo.rs:22 | a driver error becomes `QueryFailed` with that same error, whatever the mapper, for both cardinalities |
| Rows.ManyOk | src/schema.rs:21-30 | list cardinality succeeds with `objects` exactly when there is one object per row, each the mapper's value on the row at the same position; zero rows gives `Ok([])` |
| Rows.ManyFails | src/schema.rs:22-29 | list cardinality fails at row i exactly when row i is the first failing row; it never reports `NotFound` or a panicked query |
| Rows.OneOk | src/neo.rs:23-29 | single cardinality succeeds with v exactly when there is at least one row, every row maps, and the last row maps to v |
| Rows.OneNotFound | src/neo.rs:28 | single cardinality reports `NotFound` exactly when the store returned zero rows |
| Rows.OneFails | src/neo.rs:24-28 | single cardinality fails at row i exactly when row i is the first failing row |
| Rows.AnyFailureFailsOne | src/neo.rs:24-27 | a mapper failure on any row, earlier rows included, fails the single-result call at that row or before it, even when the last row maps |
| Rows.OneDependsOnlyOnLast | src/neo.rs:24-29 | when every row maps, two row sequences with the same last row give the same successful result |
| Rows.OneIsLastOfMany | src/schema.rs:44-54 | single cardinality is the last element of the list result; an empty list gives `NotFound`; errors stay the same |
| Cypher.GetString | src/schema.rs:24-25 | `row.get::<String>` succeeds exactly when the column is present and holds a string, and then returns that string |
| Cypher.GetBool | src/schema.rs:26 | `row.get::<bool>` succeeds exactly when the column is present and holds a boolean, and then returns that boolean |
| Cypher.GetInt32 | src/graphql/schema.rs:72 | `row.get::<i32>` succeeds exactly on an integer value within 32 bits, and then returns that value |
| Literals.DebugStr | src/schema.rs:42 | no contract of its own: `{:?}` of a str, the escaped text between double quotes; characterised by `Literals.DebugStrRoundTrip` |
| Literals.DebugBool | src/schema.rs:42 | no contract of its own: `{:?}` of a bool, `true` or `false`; it appears in the tails that `Schema.CreateStatementCarriesFields` and `GraphqlSchema.CorrectedTitleLiteral` state |
| Literals.DebugInt | src/graphql/schema.rs:63 | no contract of its own: `{:?}` of an integer, in decimal; characterised by `GraphqlSchema.FixedIdSpelling` |
| Literals.LiteralBodyOfEscapeChar | src/schema.rs:42 | one Debug-escaped character is read back by the store as that same character, and reading resumes right after it (for the modelled escape set; see Left out) |
| Literals.LiteralBodyOfEscape | src/schema.rs:42 | the store reads the escaped text of any string, closed by a quote, back as that string, and stops right after the quote (for the modelled escape set; see Left out) |
| Literals.DebugStrRoundTrip | src/schema.rs:42 | a Debug-quoted string read back as a string literal gives the string and the text after it (for the modelled escape set; see Left out) |
| Schema.MapTodo | src/schema.rs:23-27 | no contract of its own: the per-row `Todo { .. }` of both resolvers (also lines 46-50); characterised by `Schema.MapTodoIff`, `Schema.MapTodoFails` and `Schema.MapTodoReadsOnlyTodoColumns` |
| Schema.CreateTodoStatement | src/schema.rs:42 | no contract of its own: the `format!` text of `add_todo`; characterised by `Schema.CreateStatementCarriesFields` and `Schema.StatementsReturnTodoColumns` |
| Schema.MapTodoIff | src/schema.rs:23-27 | the mapper yields `Todo(id, title, completed)` exactly when `t.id` and `t.title` hold those strings and `t.completed` holds that boolean |
| Schema.MapTodoFails | src/schema.rs:24-26 | a row missing a Todo column, or holding the wrong type in one, yields no Todo at all |
| Schema.MapTodoReadsOnlyTodoColumns | src/schema.rs:23-27 | two rows that agree on `t.id`, `t.title` and `t.completed` map to the same result |
| TodoStatements.ReturnClauseListsTodoColumns | src/schema.rs:19 | the RETURN clause lists exactly the mapper's three columns, in order |
| TodoStatements.EndsWithReturnClause | src/schema.rs:19 | any statement ending with that RETURN clause returns exactly the mapper's three columns, in order |
| Schema.StatementsReturnTodoColumns | src/schema.rs:19-49 | the `todoItems` statement (line 19) and the `add_todo` statement (line 42) both end by returning exactly the three columns the mapper reads at lines 24-26 and 47-49 |
| Schema.CreateStatementCarriesFields | src/schema.rs:41-42 | the `add_todo` statement's id literal reads back as the given id, and its title literal as the given title (for the modelled escape set; see Left out) |
| Schema.TodoItemsFromRows | src/schema.rs:21-30 | `todoItems` succeeds with `todos` exactly when there is one Todo per row, each taking its three fields from the row at the same position |
| Schema.AddTodoFromLastRow | src/schema.rs:44-54 | `add_todo` succeeds with t exactly when there is a row, every row maps, and the last row holds t's fields; zero rows gives `NotFound` |
| Schema.TodoItems | src/schema.rs:18-31 | the outcome is `ManyOutcome` of the driver's answer to the fixed statement with the Todo mapper; counting mapper calls, a driver error maps no row, a failure at row i comes after i+1 calls, and success maps every row once |
| Schema.AddTodo | src/schema.rs:38-55 | the outcome is `OneOutcome` of the driver's answer to the CREATE statement built from id, title and completed; counting mapper calls, a driver error maps no row, a failure at row i comes after i+1 calls, and otherwise every row was mapped once |
| Schema.EmptyStoreListsNothing | src/schema.rs:19-30 | an empty store lists no Todo, and that is not an error |
| Schema.OneNodeListed | src/schema.rs:19-30 | one stored node `{abc, buy milk, false}` is listed as exactly that Todo |
| GraphqlSchema.MapTodo | src/graphql/schema.rs:71-75 | no contract of its own: the per-row `Todo { .. }` of both resolvers (also lines 38-42); characterised by `GraphqlSchema.MapTodoIff` and `GraphqlSchema.WideIdFails` |
| GraphqlSchema.CreateTodoStatement | src/graphql/schema.rs:63 | no contract of its own: the `format!` text of `add_todo` as written; characterised by `GraphqlSchema.StatementUsesFixedId`, `GraphqlSchema.TitleLiteralLost` and `GraphqlSchema.StatementsReturnTodoColumns` |
| GraphqlSchema.Todo.Id | src/graphql/schema.rs:17-19 | no contract of its own: the `id` getter; `GraphqlSchema.GettersReturnRowValues` states it returns the row's `t.id` |
| GraphqlSchema.Todo.Title | src/graphql/schema.rs:21-23 | no contract of its own: the `title` getter; `GraphqlSchema.GettersReturnRowValues` states it returns the row's `t.title` |
| GraphqlSchema.Todo.Completed | src/graphql/schema.rs:25-27 | no contract of its own: the `completed` getter; `GraphqlSchema.GettersReturnRowValues` states it returns the row's `t.completed` |
| GraphqlSchema.MapTodoIff | src/graphql/schema.rs:71-75 | the mapper yields a Todo exactly when `t.id` holds a 32-bit integer, `t.title` a string and `t.completed` a boolean equal to its fields |
| GraphqlSchema.WideIdFails | src/graphql/schema.rs:72 | an integer id outside the `i32` range fails the mapping rather than wrapping |
| GraphqlSchema.GettersReturnRowValues | src/graphql/schema.rs:17-27 | the `id`, `title` and `completed` getters of a mapped Todo return the values of the row it came from, unchanged |
| GraphqlSchema.FixedIdSpelling | src/graphql/schema.rs:62-63 | the fixed id 1256 is written into the statement as `1256` |
| GraphqlSchema.StatementUsesFixedId | src/graphql/schema.rs:62-63 | whatever the title and completion flag, both statement forms write `id: 1256` into their CREATE pattern |
| GraphqlSchema.CorrectedCreateTodoStatement | src/graphql/schema.rs:63 | no contract of its own: line 63 with the title quoted once, as src/schema.rs:42 writes it; characterised by `GraphqlSchema.CorrectedTitleLiteral` and `GraphqlSchema.StatementUsesFixedId` |
| GraphqlSchema.TitleLiteralLost | src/graphql/schema.rs:63 | as written, the first string literal after `title: ` is `""`, never a non-empty title; what follows that empty literal is the escaped title and a second `""`, outside any literal |
| GraphqlSchema.CorrectedTitleLiteral | src/graphql/schema.rs:63 | quoted once, the title property reads back as the title, followed by the rest of the statement |
| GraphqlSchema.StatementsReturnTodoColumns | src/graphql/schema.rs:34-75 | both statements (lines 34 and 63) end by returning exactly the three columns the mapper reads at lines 39-41 and 72-74 |
| GraphqlSchema.TodoItemsFromRows | src/graphql/schema.rs:35-45 | `todoItems` succeeds with `todos` exactly when the driver answered with rows and each Todo takes its fields from the row at the same position; a driver error panics |
| GraphqlSchema.AddTodoFromLastRow | src/graphql/schema.rs:64-79 | `add_todo` succeeds with t exactly when the driver answered with at least one row, every row maps, and the last row holds t's fields; every other case is a panic |
| GraphqlSchema.TodoItems | src/graphql/schema.rs:33-45 | the outcome is the unwrapped `ManyOutcome` of the driver's answer; it never returns a driver error; counting mapper calls, a driver error maps no row, a failure at row i comes after i+1 calls, and success maps every row once |
| GraphqlSchema.AddTodo | src/graphql/schema.rs:59-80 | the outcome is the unwrapped `OneOutcome` of the driver's answer to the statement as written; counting mapper calls, a driver error maps no row, a failure at row i comes after i+1 calls, and otherwise every row was mapped once |

## Findings

| source | as written | input that shows it | evidently intended | confidence | as-written member | corrected member |
|---|---|---|---|---|---|---|
| src/graphql/schema.rs:63 | `title: \"{:?}\"` puts a second pair of quotes around the Debug-quoted title, so the text reads `title: ""buy milk""` | title `buy milk`: the first string literal after `title: ` is the empty literal `""`, and `buy milk""` follows outside any literal; the store most likely rejects the statement as a syntax error, so `result.unwrap()` (line 70) would panic (not verified) | `title: {:?}`, as src/schema.rs:42 writes it | high; not executed | GraphqlSchema.TitleLiteralLost | GraphqlSchema.CorrectedTitleLiteral |

The corrected statement is `GraphqlSchema.CorrectedCreateTodoStatement`.
`GraphqlSchema.AddTodo` still builds the statement as written, because it models
that resolver. Its outcome contract holds for any answer the driver gives to
the text, so it does not depend on which statement is used.

## Left out

- `GraphClient::exec` and the `primary_db` connection pool (src/neo.rs:8-9) are network and driver calls. `exec` is a function parameter from statement text to a driver error or a row sequence. So repeating a read against unchanged data gives the same result by construction.
- `Uuid::new_v4()` (src/schema.rs:41) is randomness. The id is a parameter of `Schema.AddTodo`.
- Literals.Escape: escapes only `"`, `\`, newline, carriage return and tab. Rust also writes `\0`, and `\u{..}` for non-printable and grapheme-extending (combining) characters such as U+0301. Here those pass through unchanged.
- Literals.DebugStrRoundTrip: the round trip holds for the model's `Escape`. It says nothing about strings that contain a NUL, another non-printable character or a combining character. Rust writes those as `\0` or `\u{..}`, which Cypher does not read back as the original character.
- Literals.LiteralBodyOfEscapeChar: holds for the model's `EscapeChar` only. Rust writes NUL as `\0`, and non-printable and combining characters as `\u{..}`; the store does not read those back as the original character.
- Literals.LiteralBodyOfEscape: holds for the model's `Escape` only, with the same gap as `Literals.DebugStrRoundTrip`.
- Schema.CreateStatementCarriesFields: the id and title read back only when they avoid the characters above. A UUID contains none of them, but a title may.
- GraphqlSchema.CorrectedTitleLiteral: the title reads back only when it avoids the characters above.
- Literals.LiteralBody: decodes only the `\n \r \t \" \' \\` escapes. Every other escape, Cypher's upper-case and `\u` forms included, is read as malformed.
- Cypher.Value: an integer is unbounded. The store's 64-bit limit and floating-point numbers are not modelled.
- Juniper's conversion of a driver error into a `FieldError` is not modelled. `QueryFailed` carries the driver error itself.
- Panic unwinding and how Rocket or juniper report a panicked request are not modelled. A panic is an outcome.
- src/routes.rs, src/main.rs and src/bin/main.rs are HTTP routing, request execution, Rocket start-up and static file serving. They are not part of this model.
- The juniper `graphql_object!` and `RootNode` schema machinery is not modelled. Only the resolver bodies are.
- The commented-out diesel `update_todo` and `order(dsl::id)` code (src/schema.rs:57-81, src/graphql/schema.rs:46-51, 82-106) is dead code.
- The stale import of `NewTodo` (src/graphql/schema.rs:5) names nothing that exists. That schema's `Todo` is its own datatype with an `i32` id and is not reconciled with src/models.rs.
